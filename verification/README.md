# Atlaspipe: a verified model of the crawl frontier, the pipeline and its arithmetic

This project models, in Dafny, the parts of Atlaspipe whose correctness depends on many steps taken
together, and proves for all inputs, runs or interleavings what the service relies on.

**The lease protocol** (`Protocol.dfy`, `LeaseTheorems.dfy`). A frontier row is pending, leased,
complete or dead. Rows are inserted, retired when their last lease runs out, claimed under a fresh
token, renewed, completed and handed back; every step carries its own clock reading, and nothing is
assumed about how the readings of different callers relate. Each row keeps the history of its leases
and what became of them. From one inductive invariant follow fencing, conservation of leases, the
attempt budget, a termination rank and bounded recovery, over every run.

**The in-memory repository** (`Repository.dfy`, with `PageStore.dfy`, `Scheduling.dfy` and
`JobProgress.dfy` for what its tables mean). A class that mutates its dictionaries the way the original
does; each method is proved to append exactly its protocol steps to the history and to leave exactly
the tables stated.

**The frontier worker** (`Worker.dfy`, `Retry.dfy`). `run_once` and `run_until_drained` with fetching,
concurrent processing in any order of settlement, and other callers acting in between.

**The database repository** (`SqlTransactions.dfy`, `SqlCommits.dfy`). Statements of many transactions interleave, crash
and commit in any order; the committed tables are those of a run of the lease protocol, and what a commit of
each kind of call leaves is stated column by column.

**The bounded pipeline** (`Pipeline.dfy`, `PipelineTheorems.dfy`, `Deduplication.dfy`). A producer, N
workers and a writer over two bounded queues, with every interleaving of their awaits.

**Rates, quotas, rollups, keys** (`RateLimiter.dfy`, `Quota.dfy`, `Rollup.dfy`, `Normalization.dfy`,
`NormalizationLaws.dfy`).
The token bucket over real numbers, the minute quota with its pruned table, the per-domain rollup, and
the normalized URL that pages are deduplicated by.

`Prelude.dfy` holds options, sums and sorting. Times are integers in microseconds, except in the token
bucket and the retry delays, which use real numbers. Clock readings, random draws, fresh tokens, fetch
results and parsed pages are inputs.

`dafny verify dfyconfig.toml` checks everything.

## What turned out to hold only conditionally

- Normalization is not idempotent for a path that is a run of two or more slashes: the first pass
  leaves no path, the second makes it "/". For every other path it is
  (`Normalization.NormalizingTwiceIff`, and on text `Normalization.KeyOfKeyIff`).
- Percent escapes that do not decode are replaced by U+FFFD, so URLs with different queries can have the
  same key. A parameter value collides with some other exactly when its bytes are not UTF-8 or contain
  U+FFFD (`Normalization.DecodingCollidesIff`, `Normalization.ValuesCollideIff`).
- The rate limiter grants nothing at all below one request a second, although its constructor accepts
  such rates (`RateLimiter.SomeGrantPossibleIff`).
- With no workers and something to fetch, the pipeline always deadlocks; otherwise it never does
  (`PipelineTheorems.MaximalRunReturnsIff`).
- A page turned away as a duplicate is remembered as well, so a page can be dropped although nothing
  that was kept shares its URL or content (`PipelineTheorems.DroppedWithoutAKeptTwin`). In every order
  of checking each dropped page has such a twin, exactly when sharing URL or content is transitive among
  the pages (`PipelineTheorems.DropsExplainedIff`).
- The pruned quota table decides a request like an unpruned one in every history with the same clock
  readings, exactly when no earlier request of the same minute was followed by a deletion of that minute
  (`Quota.PruningIsExactIff`). The single entry of the other path does so exactly when no earlier request
  of the same minute was followed by one of another minute (`Quota.SingleEntryIsExactIff`). The unguarded
  first insert needs a positive request limit, which the settings require.
- The rollup stops agreeing with live grouping at the first page that is added or moved
  (`Rollup.AgreementSurvivesSaveIff`).
- A job that is "running" falls back to "pending" exactly when its only row that is not pending is handed
  back with attempts left (`JobProgress.RunningFallsBackIff`; an example is
  `JobProgress.RunningMayFallBack`).

## Model

| member | source | states |
|---|---|---|
| Protocol.StepKeepsInv | src/atlaspipe/db/repositories.py:721-906 | Every insert, reap, claim, renewal, completion and hand-back, accepted or rejected, keeps the invariant: pending rows have attempts left and no lease fields, leased ones 1 to max attempts and all of them, dead ones have used all attempts, tokens and (job, URL) keys are unique, each row's fields are what its lease history says. |
| Protocol.RunKeepsInv | src/atlaspipe/db/repositories.py:721-906 | The invariant holds after every run. |
| LeaseTheorems.AcceptedIffNewestOutstanding | src/atlaspipe/db/repositories.py:816-825 | The fence passes exactly when the call presents the newest lease of that row, it is still outstanding, and its deadline is ahead. |
| LeaseTheorems.AtMostOneAcceptance | src/atlaspipe/db/repositories.py:809-906 | In any run each lease is accepted by a completion or failure at most once, and by nothing afterwards. |
| LeaseTheorems.SpentNeverAcceptedAgain | src/atlaspipe/db/repositories.py:786-906 | A lease that is settled, superseded or expired is rejected in every later state whatever the clocks say, and the rejected call changes nothing. |
| LeaseTheorems.SupersededIsSpent | src/atlaspipe/db/repositories.py:786-792 | Every lease but the newest of a row is over, and on a terminal row the newest too. |
| LeaseTheorems.AcceptanceSpends | src/atlaspipe/db/repositories.py:826-906 | An accepted completion or failure ends the lease it presents. |
| LeaseTheorems.AcceptedNotClaimable | src/atlaspipe/db/repositories.py:965-976 | At no instant is a row both accepted by the fence and claimable or reapable. |
| LeaseTheorems.TakenOnlyWhenDue | src/atlaspipe/db/repositories.py:763-783 | In columns: a claim may take a row exactly when it has attempts left and is pending and available, or past its deadline, and the token is new; a reaping exactly when the attempts are used up and the deadline is past. |
| LeaseTheorems.AcceptedIffLeaseMatches | src/atlaspipe/db/repositories.py:819-825 | In columns: a call is accepted exactly when the row exists, is leased to that owner under that token, and its deadline is ahead. |
| LeaseTheorems.InsertedOnlyWhenNew | src/atlaspipe/db/repositories.py:729-750 | In columns: a row may be inserted exactly when its id and its URL in the job are new and it is pending, untried and free. |
| LeaseTheorems.WhatStepsWrite | src/atlaspipe/db/repositories.py:763-906 | Every column of the row after a claim, a reaping, a renewal, a completion or a hand-back; all other rows stay. |
| LeaseTheorems.HandedBackRowWaits | src/atlaspipe/db/repositories.py:898-900 | After an accepted failure with attempts left, over any run, no step takes the row before a claim whose reading has reached the availability time. |
| LeaseTheorems.LiveLeaseIsNotTaken | src/atlaspipe/db/repositories.py:965-971 | Nobody claims or reaps a leased row before its deadline is past. |
| LeaseTheorems.TerminalIsForever | src/atlaspipe/db/repositories.py:721-906 | Complete and dead rows never change again, over any run. |
| LeaseTheorems.LeaseConservation | src/atlaspipe/db/repositories.py:756-906 | Total attempts equal leases issued, which equal completions, accepted failures, leases lost and leases recorded now; the last are the leased rows and the first the complete rows. |
| LeaseTheorems.RunCounts | src/atlaspipe/db/repositories.py:756-906 | Over any run the attempt counts grow by the claims, the complete rows by the accepted completions, the returned leases by the accepted failures, summed over all callers. |
| LeaseTheorems.MovesBoundedByRank | src/atlaspipe/db/repositories.py:756-906 | Without new scheduling, the claims, reaps, completions and accepted failures of a run are at most the drop of the total rank, hence at most twice the total attempt budget. |
| LeaseTheorems.RankZeroIffDrained | src/atlaspipe/db/repositories.py:756-906 | The rank is used up exactly when every row is terminal. |
| LeaseTheorems.IdleMakesEverythingRecoverable | src/atlaspipe/db/repositories.py:764-783 | If no clock reading exceeded t, once the clock passes t plus the longest delay or lease every row that is not terminal can be claimed or reaped. |
| LeaseTheorems.CompleteImpliesPage | src/atlaspipe/db/repositories.py:853-876 | When completions come with a page, as the worker's do, every complete row has its page stored. |
| Repository.InMemoryRepository.Empty | src/atlaspipe/db/repositories.py:624-626 | The empty repository is valid, with empty history. |
| Repository.InMemoryRepository.SavePages | src/atlaspipe/db/repositories.py:671-691 | The page table becomes that of saving page by page, and the count returned is the number of new rows. |
| Repository.InMemoryRepository.ScheduleFrontierUrls | src/atlaspipe/db/repositories.py:721-754 | The frontier becomes that of scheduling URL by URL, appending only inserts to the history. |
| Repository.InMemoryRepository.AcquireFrontierBatch | src/atlaspipe/db/repositories.py:756-807 | Leases are min(batch size, due rows) many, of rows that were pending and available or past a deadline with attempts left, and exactly the first of those by priority and id; other rows change only by being reaped; the history grows by those reaps and claims. |
| Repository.ClaimEffect | src/atlaspipe/db/repositories.py:756-807 | The whole table after a claim in terms of the table before it, with distinct ids and tokens among the leases. |
| Repository.LeasedRowsInColumns | src/atlaspipe/db/repositories.py:778-806 | Every column of a leased row before and after, and of its lease. |
| Repository.LeftOutRowsInColumns | src/atlaspipe/db/repositories.py:764-784 | A row that could be taken is left out only when the batch is full and every leased row has a higher priority, or the same and a lower id; of the others exactly those whose last lease ran out become dead. |
| Repository.LeasesAreRanked | src/atlaspipe/db/repositories.py:784-786 | The leases come by descending priority, then ascending id. |
| Repository.EmptyClaimMeansDrained | src/atlaspipe/db/repositories.py:764-783 | A claim that comes back empty after the longest delay and lease have passed leaves every row complete or dead. |
| Repository.InMemoryRepository.CompleteFrontierItem | src/atlaspipe/db/repositories.py:809-830 | Accepted exactly when the fence passes; then the row is complete and unleased, else nothing changes. |
| Repository.InMemoryRepository.RenewFrontierLease | src/atlaspipe/db/repositories.py:832-851 | Accepted exactly when the fence passes; then only the deadline moves, else nothing changes. |
| Repository.InMemoryRepository.SavePageAndCompleteFrontierItem | src/atlaspipe/db/repositories.py:853-876 | Page and completion appear together or not at all. |
| Repository.InMemoryRepository.FailFrontierItem | src/atlaspipe/db/repositories.py:878-906 | Accepted exactly when the fence passes; then the row is pending after the delay, or dead if its attempts are used up. |
| Repository.InMemoryRepository.FrontierStatistics | src/atlaspipe/db/repositories.py:908-919 | The counts per state, over all rows or a job's. |
| PageStore.SaveAllFacts | src/atlaspipe/db/repositories.py:671-691 | Stored URLs stay unique with ids below the next one, the keys grow by the batch's, and the count is the number of distinct new URLs. |
| PageStore.FirstWriteWins | src/atlaspipe/db/repositories.py:671-691 | Of several pages with one new URL the first is stored. |
| PageStore.SaveTwiceIsSaveOnce | src/atlaspipe/db/repositories.py:671-691 | Saving a batch again reports zero and changes nothing. |
| PageStore.SaveAppend | src/atlaspipe/db/repositories.py:671-691 | Saving A then B is saving A followed by B, in store and in total. |
| PageStore.BatchingIrrelevant | src/atlaspipe/pipeline/pipeline.py:118-133 | However pages are cut into batches, store and total are the same. |
| Scheduling.ScheduleAllFacts | src/atlaspipe/db/repositories.py:721-754 | (job, URL) stays unique, the job's keys grow by the requested ones, the count is the number of distinct new keys. |
| Scheduling.ScheduleKeepsRows | src/atlaspipe/db/repositories.py:729-735 | No existing row is changed, whatever its state. |
| Scheduling.AddedRowsAreAsAsked | src/atlaspipe/db/repositories.py:736-750 | Every added row is pending, untried and free, with the URL of the first target of its key, its reading, and the call's job, priority and limit. |
| Scheduling.RescheduleIsNoOp | src/atlaspipe/db/repositories.py:729-735 | Scheduling known URLs again, at any time and with any priority or limit, schedules nothing and changes nothing. |
| Scheduling.InsertOrIgnoreIsTheLoop | src/atlaspipe/db/repositories.py:266-278 | One insert-or-ignore statement, given by its result (of the targets with a new key the first goes in), stores the rows of the row-by-row loop and reports as many. |
| Scheduling.ChunkedIsSequential | src/atlaspipe/db/repositories.py:266-280 | The chunked statements store those rows, up to their ids, and report the same total, for any chunk size. |
| JobProgress.StatusMeaning | src/atlaspipe/db/repositories.py:922-939 | "completed" holds exactly when all rows of the job are complete, "completed_with_errors" exactly when all are terminal and some dead, "pending" exactly when all are pending, "running" otherwise; processed is success plus failure. |
| JobProgress.ProgressCountsRows | src/atlaspipe/db/repositories.py:932-939 | success is the number of complete rows of the job, failure that of its dead rows, processed their sum. |
| JobProgress.NothingToReport | src/atlaspipe/db/repositories.py:923-925 | A job without rows, or cancelled, is reported unchanged. |
| JobProgress.ProgressNeverGoesBack | src/atlaspipe/db/repositories.py:756-939 | Success, failure and processed counts never go down over a run. |
| JobProgress.FinishedIsAbsorbing | src/atlaspipe/db/repositories.py:756-939 | Once all rows of a job are terminal and nothing is scheduled for it, its progress never changes again. |
| JobProgress.RunningFallsBackIff | src/atlaspipe/db/repositories.py:922-939 | From every reachable state, a step takes a running job to pending exactly when it is an accepted failure with attempts left on the only row of the job that was not pending. |
| JobProgress.NeverPendingAfterTerminal | src/atlaspipe/db/repositories.py:922-939 | Once a row of the job is complete or dead, no run makes the job pending again. |
| JobProgress.RunningMayFallBack | src/atlaspipe/db/repositories.py:926-931 | The example: a claim makes a one-row job running and a hand-back makes it pending again. |
| JobProgress.AccountedForIffDrained | src/atlaspipe/db/repositories.py:41-51 | accounted_for equals the number of rows exactly when every row is terminal. |
| JobProgress.NeverFailed | src/atlaspipe/db/repositories.py:898-903 | The failed state is never entered. |
| Retry.RetryDelayCapped | src/atlaspipe/crawler/frontier_worker.py:292-296 | Whatever the policy, the header and the jitter, a row is handed back for at most 30 seconds, and Retry-After is honoured exactly up to that. |
| Retry.BackoffGrows | src/atlaspipe/crawler/retry.py:46-49 | Delays are between zero and the maximum and do not shrink with the attempt. |
| Retry.RetriedStatuses | src/atlaspipe/crawler/retry.py:8-12 | Exactly 429, 500, 502, 503 and 504 are tried again. |
| Retry.FirstDelay | src/atlaspipe/crawler/retry.py:46-49 | The first delay is base plus jitter, capped. |
| Retry.DelayDoubles | src/atlaspipe/crawler/retry.py:46-49 | Without jitter each delay is twice the one before until the maximum is reached, and stays there. |
| Retry.JitterAdds | src/atlaspipe/crawler/retry.py:47-49 | The jitter comes on top, below the maximum. |
| Retry.DelayWithoutHeader | src/atlaspipe/crawler/frontier_worker.py:292-296 | Without Retry-After the delay is the policy's up to 30 seconds, rounded up to whole seconds. |
| Worker.SettlingCallIsTimely | src/atlaspipe/crawler/frontier_worker.py:217-274 | The worker completes exactly on a conclusive convertible response, only with a page, and hands back for at most 30 seconds. |
| Worker.LiveLeaseIsSettled | src/atlaspipe/crawler/frontier_worker.py:217-274 | Settling a live lease is always accepted: the row becomes complete exactly for a response without error, with a status that is not retried and a page; otherwise it is pending or dead with the wait asked for by the header, the first or last backoff, or none. |
| Worker.FrontierWorker.FetchWithRetries | src/atlaspipe/crawler/frontier_worker.py:276-290 | At most max retries plus one fetches, each logged under the lease; the result is the first conclusive response or the last one tried. |
| Worker.FrontierWorker.SettleLease | src/atlaspipe/crawler/frontier_worker.py:217-274 | Exactly one settling call is made; if the lease is live it takes effect as the response demands, with the page saved in case of completion; if not, nothing changes. |
| Worker.FrontierWorker.ProcessRenewed | src/atlaspipe/crawler/frontier_worker.py:217-290 | The same with the fetches before it and other callers in between; the lease has been fetched under exactly as often as this call fetched. |
| Worker.FrontierWorker.RunOnce | src/atlaspipe/crawler/frontier_worker.py:102-124 | claimed is min(claim size, due rows) and equals completed plus failed plus stale; the counts are exactly the steps taken under this worker's name; each claim uses up rank; a row is fetched at most max attempts times (max retries + 1) over all workers; an empty pass that comes long enough after the last clock reading leaves every row terminal. |
| Worker.FrontierWorker.RunUntilDrained | src/atlaspipe/crawler/frontier_worker.py:126-142 | Terminates on (rank, empty polls left); the totals add up and are exactly this worker's steps; claims are within the attempt budget and fetches of a row within max attempts times (max retries + 1); nothing was due at the last poll, and if that came more than max(30 s, longest lease) after every earlier clock reading, all rows are terminal. |
| Worker.FetchBudgetKept | src/atlaspipe/crawler/frontier_worker.py:276-290 | With at most that many fetches logged under each token, the fetches of a row over all its leases are at most max attempts times as many. |
| Worker.CompletedByAllWorkers | src/atlaspipe/crawler/frontier_worker.py:119-124 | The complete rows are as many as all workers together have completed, when nobody else completes rows. |
| SqlTransactions.CommittedRefinesProtocol | src/atlaspipe/db/repositories.py:245-504 | For every interleaving of statements, commits and aborts the committed rows and pages are those of a run of the atomic protocol. |
| SqlTransactions.CommitIsTheCall | src/atlaspipe/db/repositories.py:380-504 | Committing an accepted fenced call is exactly its protocol step, with the deadline or availability time the call asked for; committing a rejected one changes nothing. |
| SqlCommits.RejectedIffFenceFails | src/atlaspipe/db/repositories.py:443-456 | In columns: a call is turned down exactly when the row is missing, not leased, under another owner or token, or not ahead of its deadline. |
| SqlCommits.GoesAheadIffFenceHolds | src/atlaspipe/db/repositories.py:443-456 | Otherwise it goes ahead exactly when no other transaction has the row locked. |
| SqlCommits.CommittedCallInColumns | src/atlaspipe/db/repositories.py:380-504 | Every column of the row after an accepted completion, renewal or failure is committed, by the two clock readings and what was asked for. |
| SqlCommits.ClaimPossibleIff | src/atlaspipe/db/repositories.py:291-313 | In columns: when a claiming transaction may take or retire an unlocked row. |
| SqlCommits.CommittedClaim | src/atlaspipe/db/repositories.py:282-378 | Committing a claim leases at most the limit; each row was due with attempts left and carries the owner, a token of the transaction and the deadline asked for; some exhausted rows become dead; nothing else changes. |
| SqlCommits.CommittedClaimIsAccepted | src/atlaspipe/db/repositories.py:282-378 | Right after the commit the fence accepts the owner and the row's token at every reading before that deadline, and no two rows share a token. |
| SqlCommits.CommittedSchedule | src/atlaspipe/db/repositories.py:245-280 | After committing a schedule call every URL asked for has exactly one row in the job, rows that were there are unchanged, and the others are new work as asked for. |
| SqlTransactions.OnlyCommitsShow | src/atlaspipe/crawler/frontier_worker.py:349-359 | Nothing but a commit changes committed rows or pages: a crash before it leaves neither effect. |
| SqlTransactions.LockFreezesRow | src/atlaspipe/db/repositories.py:443-456 | A locked row stays as it is until its transaction ends, however long that takes. |
| SqlTransactions.CommitAfterDeadline | src/atlaspipe/db/repositories.py:435-466 | A save-and-complete commits onto the lease it was checked against, row and page together, even past the deadline. |
| SqlTransactions.CommittedCompleteHasPage | src/atlaspipe/db/repositories.py:435-466 | With completions made by save-and-complete, every committed complete row has its page committed. |
| SqlTransactions.IdleDatabaseIsRecoverable | src/atlaspipe/db/repositories.py:282-378 | If no transaction read a clock beyond t, once the clock passes t plus the longest delay or lease every committed row that is not terminal can be claimed or reaped, whatever crashed. |
| Pipeline.StepKeepsInv | src/atlaspipe/pipeline/pipeline.py:53-133 | Every step of producer, worker or writer keeps the pipeline invariant. |
| Pipeline.RunKeepsInv | src/atlaspipe/pipeline/pipeline.py:53-133 | It holds after every schedule. |
| PipelineTheorems.NothingBehindTheSentinel | src/atlaspipe/pipeline/pipeline.py:69-72 | After join returns no worker runs and nothing but one sentinel is put on the output queue. |
| PipelineTheorems.OneSentinelPerWorker | src/atlaspipe/pipeline/pipeline.py:64-67 | In a complete run URLs are taken in order, each once, before any sentinel, and each worker takes exactly one sentinel. |
| PipelineTheorems.EveryUrlAccountedFor | src/atlaspipe/pipeline/pipeline.py:88-116 | At every instant each URL is waiting, at a worker, or in exactly one counter. |
| PipelineTheorems.ResultAddsUp | src/atlaspipe/pipeline/pipeline.py:74-80 | requested is processed plus failed plus duplicates, and the accepted pages are, as a multiset, those of the batches, all full but the last. |
| PipelineTheorems.AcceptedAreDistinct | src/atlaspipe/pipeline/pipeline.py:105-114 | Accepted pages differ pairwise in normalized URL and in content. |
| PipelineTheorems.AcceptedIffNew | src/atlaspipe/pipeline/pipeline.py:105-114 | In every run a page was accepted exactly when it was checked at a point before which nothing sharing its URL or content had been, and there are as many accepted pages as such points. |
| PipelineTheorems.AcceptedIffNewInSession | src/atlaspipe/pipeline/pipeline.py:105-114 | Over all runs of a fresh object a page is accepted exactly when it is checked at a point before which no page, of that run or an earlier one, had its URL or its stored content hash. |
| PipelineTheorems.UnrelatedPagesAreAccepted | src/atlaspipe/pipeline/pipeline.py:105-114 | Pages with URLs and content hashes of their own, not known before, are all accepted. |
| PipelineTheorems.DropsExplainedIff | src/atlaspipe/pipeline/pipeline.py:105-114 | In every order of checking each dropped page shares URL or content with a page kept before it, or was known before the run, exactly when sharing is transitive among the pages. |
| PipelineTheorems.DroppedPagesHaveTwins | src/atlaspipe/pipeline/pipeline.py:105-114 | So over such pages every run has an accepted twin for each page it dropped. |
| PipelineTheorems.DroppedWithoutAKeptTwin | src/atlaspipe/pipeline/deduplication.py:53-54 | Pages turned away are remembered: a page sharing nothing with any kept page can be dropped. |
| PipelineTheorems.SavedCountsNewUrls | src/atlaspipe/pipeline/pipeline.py:118-133 | The repository ends with what it held plus the accepted pages; saved is the number of accepted URLs it did not hold. |
| PipelineTheorems.SavedIsProcessedIff | src/atlaspipe/pipeline/pipeline.py:74-80 | saved equals processed exactly when no accepted URL was stored before. |
| PipelineTheorems.SavedIsProcessedInEveryRun | src/atlaspipe/pipeline/pipeline.py:31-80 | For the only writer of an initially empty repository saved equals processed in every run of the object. |
| PipelineTheorems.RunsAcceptDisjointUrls | src/atlaspipe/pipeline/pipeline.py:51 | No URL is accepted in two runs of one object. |
| PipelineTheorems.EveryRunEnds | src/atlaspipe/pipeline/pipeline.py:53-133 | No schedule has more than six steps a URL, two a worker and six more. |
| PipelineTheorems.MaximalRunReturnsIff | src/atlaspipe/pipeline/pipeline.py:53-133 | A schedule that can go no further has returned, exactly when there is a worker or nothing to fetch. |
| PipelineTheorems.EveryRunCanBeCompleted | src/atlaspipe/pipeline/pipeline.py:53-133 | From every reachable state some schedule reaches such an end. |
| PipelineTheorems.NeverStuckEarly | src/atlaspipe/pipeline/pipeline.py:53-133 | Before `run` has returned, every reachable state has an enabled step. |
| PipelineTheorems.QueuesStayWithinLimit | src/atlaspipe/pipeline/pipeline.py:47-55 | Neither queue exceeds the size from the settings, and a put waits exactly while its queue is that full. |
| Deduplication.Deduplicator.CheckAndRemember | src/atlaspipe/pipeline/deduplication.py:36-62 | Each flag says whether some earlier call had that URL, that content, or a similar text, whatever the earlier calls were answered. |
| PipelineTheorems.CheckIsTheDeduplicators | src/atlaspipe/pipeline/pipeline.py:105-112 | The pipeline's check answers what the deduplicator answers to the same calls. |
| RateLimiter.TokensStayInRange | src/atlaspipe/crawler/rate_limiter.py:19-31 | 0 <= tokens <= rate after any interleaving of passes. |
| RateLimiter.TokensAreConserved | src/atlaspipe/crawler/rate_limiter.py:22-28 | Tokens at the start plus those time added are what is left, was granted, or was cut off by the cap. |
| RateLimiter.SpilledOnlyWhenFull | src/atlaspipe/crawler/rate_limiter.py:24 | Tokens are lost only by a refill that reaches the rate. |
| RateLimiter.FullBurst | src/atlaspipe/crawler/rate_limiter.py:22-28 | After a second without passes, of n passes at once exactly min(n, whole tokens in the rate) are granted. |
| RateLimiter.WindowBound | src/atlaspipe/crawler/rate_limiter.py:19-31 | Any window of T seconds of any run has at most rate + rate * T grants. |
| RateLimiter.WaitIsExact | src/atlaspipe/crawler/rate_limiter.py:27-30 | A lone waiter's next pass is granted exactly when the computed wait has elapsed and the rate is at least one. |
| RateLimiter.SomeGrantPossibleIff | src/atlaspipe/crawler/rate_limiter.py:11-30 | A limiter can grant at all exactly when its rate is at least one. |
| RateLimiter.TokenBucketRateLimiter.TryAcquire | src/atlaspipe/crawler/rate_limiter.py:21-29 | One locked pass: granted exactly when a token is there, tokens in range, else the time to sleep. |
| RateLimiter.TokenBucketRateLimiter.Acquire | src/atlaspipe/crawler/rate_limiter.py:19-30 | Takes exactly one token when granted, and needs two passes at most if it slept as computed and nobody interfered. |
| Quota.MinuteWithinLimits | src/atlaspipe/api/security.py:52-55 | In the reference that forgets nothing, no principal's minute exceeds either limit. |
| Quota.WindowMeans | src/atlaspipe/api/security.py:49 | A window is a whole minute of the clock and contains the reading. |
| Quota.AnyMinuteWithinTwiceLimits | src/atlaspipe/api/security.py:49-55 | In the reference, any sixty seconds, ends included, admit at most twice each limit. |
| Quota.ServedWithinLimits | src/atlaspipe/api/security.py:60-76 | What the pruned table lets through keeps both bounds, as long as no decided minute was lost. |
| Quota.TwiceIsReached | src/atlaspipe/api/security.py:49-55 | Whatever the limits, two full bursts around a minute boundary reach twice both of them. |
| Quota.PruningIsExactIff | src/atlaspipe/api/security.py:60-76 | For given clock readings the pruned table decides a request, in every history, like one that never deletes, exactly when no earlier request of its minute was followed by a deletion of that minute. |
| Quota.PruningChangesNoDecision | src/atlaspipe/api/security.py:60-76 | A request whose minute was not lost is decided exactly. |
| Quota.FourMinutesLateLosesNothing | src/atlaspipe/api/security.py:61-76 | Transactions decided in order, or up to four minutes late, meet that condition. |
| Quota.LateRequestIsLetThrough | src/atlaspipe/api/security.py:74-76 | For all readings that lose a minute there is a history with those readings that lets a request of that minute through beyond the limit. |
| Quota.FirstRowNeedsPositiveLimit | src/atlaspipe/api/security.py:63-73 | The unguarded insert decides like the guarded update exactly when the request limit is positive. |
| Quota.ApiQuota.Consume | src/atlaspipe/api/security.py:43-78 | The call decides as the reference does unless its minute was lost; an oversized request changes nothing; old rows are gone afterwards. |
| Quota.SingleEntryIsExactIff | src/atlaspipe/api/security.py:47-57 | For given clock readings keeping one minute decides, in every history, like keeping all, exactly when no earlier request of the same minute was followed by one of another minute. |
| Quota.SingleEntryChangesNoDecision | src/atlaspipe/api/security.py:47-57 | A request whose minute was not displaced is decided exactly. |
| Quota.ForwardMinutesDisplaceNothing | src/atlaspipe/api/security.py:49 | A clock whose minutes do not go back meets that condition. |
| Quota.SingleMinuteQuota.Consume | src/atlaspipe/api/security.py:47-57 | The call decides as the reference does unless its minute was displaced; a rejection changes nothing; an acceptance leaves its own minute only. |
| Rollup.AgreementIff | src/atlaspipe/db/repositories.py:544-563 | The rollup answers like live grouping exactly when grouping has not changed since the refresh or the refresh found no page. |
| Rollup.RowBounds | src/atlaspipe/db/repositories.py:565-579 | In each row there is a page, successes plus failures and distinct contents are at most the pages, the former equal exactly when every page has a status of 200 or above. |
| Rollup.OneMorePage | src/atlaspipe/db/repositories.py:569-579 | What one more page adds to each column of its domain's row, by status, length and content hash; other rows stay. |
| Rollup.CountsSumToPages | src/atlaspipe/db/repositories.py:557-563 | The page counts of all domains sum to the number of pages. |
| Rollup.SaveKeepsCountsIff | src/atlaspipe/db/repositories.py:213-243 | Saving a page leaves the live counts alone exactly when it overwrites a page of the same domain. |
| Rollup.UpsertMeans | src/atlaspipe/db/repositories.py:219-243 | A saved page replaces the row with its URL or adds one; all others stay. |
| Rollup.AgreementSurvivesSaveIff | src/atlaspipe/db/repositories.py:544-598 | Agreement survives a save exactly when the save overwrites a page without moving it. |
| Rollup.CountDomains | src/atlaspipe/db/repositories.py:705-707 | The counting loop is live grouping. |
| Rollup.StatisticsTables.DomainStats | src/atlaspipe/db/repositories.py:544-563 | The answer is the grouping the last refresh saw, or live grouping if it saw no page. |
| Rollup.StatisticsTables.RefreshDomainStats | src/atlaspipe/db/repositories.py:565-598 | Right after a refresh the answer is live grouping, and the number returned is that of domains. |
| Normalization.SameKeyIffEquivalent | src/atlaspipe/pipeline/normalization.py:9-33 | Two URLs have the same key exactly when scheme and host agree up to case, the effective ports and cleaned paths agree, and every parameter that is not for tracking occurs equally often with the same decoded value. |
| Normalization.KeptCount | src/atlaspipe/pipeline/normalization.py:25-31 | A pair is kept as often as it occurs, or never if its key is for tracking. |
| Normalization.KeptAppend | src/atlaspipe/pipeline/normalization.py:25-31 | Pairs are judged one by one and keep their order. |
| NormalizationLaws.TrackingMeans | src/atlaspipe/pipeline/normalization.py:5-6 | The tracking parameters by name and prefix, in any case. |
| NormalizationLaws.SameLowerIff | src/atlaspipe/pipeline/normalization.py:12-13 | Texts lower alike exactly when they differ in the case of ASCII letters only. |
| NormalizationLaws.DefaultScheme | src/atlaspipe/pipeline/normalization.py:12 | A missing scheme is https, and the fragment does not matter. |
| NormalizationLaws.PortMeans | src/atlaspipe/pipeline/normalization.py:16-19 | Exactly port 80 of http and 443 of https are dropped. |
| NormalizationLaws.QuotingMeans | src/atlaspipe/pipeline/normalization.py:21-32 | Which bytes stand for themselves in paths and queries, and that others become a percent sign and two upper-case digits. |
| NormalizationLaws.UnquotingMeans | src/atlaspipe/pipeline/normalization.py:26 | An escape decodes to its byte in either case of its digits, plus is a space, other bytes stand for themselves. |
| NormalizationLaws.WholeIffForm | src/atlaspipe/pipeline/normalization.py:26 | A text starts with a complete character exactly when it starts with the UTF-8 form of one (section 3 of RFC 3629). |
| NormalizationLaws.DecodingMeans | src/atlaspipe/pipeline/normalization.py:26 | Complete characters are kept, a byte that starts none becomes U+FFFD. |
| NormalizationLaws.ParseAppends | src/atlaspipe/pipeline/normalization.py:26 | Fields separated by '&' are read one by one. |
| NormalizationLaws.FieldMeans | src/atlaspipe/pipeline/normalization.py:26 | A field is cut at its first '='; without one the value is empty; an empty field is nothing. |
| NormalizationLaws.EncodingAppends | src/atlaspipe/pipeline/normalization.py:31 | Encoded pairs are joined by '&'. |
| NormalizationLaws.CleanQueryIsOrdered | src/atlaspipe/pipeline/normalization.py:31 | The parameters come in order of their keys, then of their values. |
| NormalizationLaws.DictionaryOrder | src/atlaspipe/pipeline/normalization.py:31 | That order is the dictionary order of bytes. |
| NormalizationLaws.CleanPathMeans | src/atlaspipe/pipeline/normalization.py:21-23 | A cleaned path is the quoted path without the slashes at its end, or "/". |
| NormalizationLaws.TrailingSlashDoesNotMatter | src/atlaspipe/pipeline/normalization.py:22-23 | A slash at the end of a path that is not all slashes does not matter. |
| NormalizationLaws.NormalizeTextMeans | src/atlaspipe/pipeline/normalization.py:9-33 | Normalizing the text of a URL gives the key of its parts. |
| Normalization.NormalizingTwiceIff | src/atlaspipe/pipeline/normalization.py:9-33 | Normalizing twice is normalizing once exactly when the path is not a run of two or more slashes; then the second path is "/". |
| Normalization.KeyOfKeyIff | src/atlaspipe/pipeline/normalization.py:9-33 | Normalizing the text of a key gives that text again exactly when the path was no such run, and normalizing once more never changes it. |
| Normalization.CleanPathIsFixedIff | src/atlaspipe/pipeline/normalization.py:21-23 | The path part of it. |
| Normalization.QueryRoundTripIff | src/atlaspipe/pipeline/normalization.py:26-31 | Parsing an encoded list of pairs gives the list back exactly when all of it is UTF-8. |
| Normalization.DecodingCollidesIff | src/atlaspipe/pipeline/normalization.py:26 | Some other text decodes, with replacement, to the same exactly when this one is not UTF-8 or contains U+FFFD. |
| Normalization.ValuesCollideIff | src/atlaspipe/pipeline/normalization.py:26-31 | Two values of a parameter lead to the same query exactly when they decode to the same text. |
| Normalization.SplitKey | src/atlaspipe/pipeline/normalization.py:11-33 | Splitting the text of a key gives back the parts of the normal form. |
| Normalization.SplitText | src/atlaspipe/pipeline/normalization.py:11-14 | Splitting a text made of scheme, authority, path, query and fragment gives those parts, scheme and host in lower case. |
| Normalization.NormalizeUrl | src/atlaspipe/pipeline/normalization.py:9-33 | The step-by-step function, with its loop over the query pairs, computes that key. |

## Left out

- HTTP fetching, HTML parsing, URL safety checks, hashing, tracing, metrics, logging, heartbeats, authentication and routes: input or plumbing.
- Columns the protocol does not read: error type and message, domain, traceparent, timestamps.
- `run_continuously`, job creation and the listing queries: they add no property beyond those of `run_once` and of the tables.
- Exceptions raised by a fetch, a parse or a save inside the worker or the pipeline: the runs modelled are those in which they return.
- The order in which the database hands out leases under contention, and `created_at` in it: a transaction may claim any due unlocked rows, which includes the original's choice.
- The database's row count for upserted pages and its last-write-wins contents: the two repositories are compared on protocol fields and page keys; only `Rollup.Upsert` overwrites.
- Negative batch and queue sizes: both are natural numbers here.
- The order of the domains in a `domain_stats` answer: answers are maps.
- Userinfo, bracketed hosts, internationalized names and surrounding whitespace in a URL: a URL starts as the parts urlsplit finds, with a registered ASCII name for host; letters outside ASCII that lowercase into ASCII are not treated as tracking names.
- Normalization.Split: covers absolute URLs with such an authority and a numeric port; others are answered with nothing.
- HTTP dates in Retry-After, floating-point rounding.
- RateLimiter.TokenBucketRateLimiter.Acquire: is about a caller nobody interrupts; interleaved callers are covered by the lemmas about sequences of passes.
- Worker.FrontierWorker.RunUntilDrained: assumes that other callers schedule nothing meanwhile, do not settle, claim or fetch under this worker's leases, and keep to the same bounds on fetches per lease and delays, and to the longest lease; the worker's own methods are proved to keep those bounds in turn.
- Worker.FrontierWorker.ProcessRenewed: the periodic renewal task is one of the other callers.
- SqlTransactions.CommittedRefinesProtocol: assumes of the database exclusive row locks held to the end of the transaction, re-evaluation of a guard after a lock wait, SKIP LOCKED, atomic insert-or-ignore, and that an aborted transaction leaves no write.
- LeaseTheorems.AcceptedNotClaimable: is about one clock reading; two callers with different clocks are covered by fencing instead.
- Pipeline.RunKeepsInv: a fetch is one step with an arbitrary outcome; the rate and domain limiters inside it are taken to let it through eventually.
- Deduplication.Deduplicator.CheckAndRemember: takes the text similarity as a parameter; how it is computed from tokens is not modelled.
