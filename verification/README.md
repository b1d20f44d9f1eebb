# A verified model of Goliath's stateful core

Goliath automates the resale of inventory: it processes photographs, prices items, publishes
listings and runs agent jobs, all over one shared database. This project models the parts of it
whose correctness is hardest to see from any one function, and proves what those parts promise
over every input, every run and every interleaving.

- **Media processing** (`MediaJobs`, `MediaProtocol`): the leased job queue and the workers on it. A
  claim is a snapshot followed by a conditional update, with any other steps between the two;
  workers may crash or finish late, and expired leases are reaped without a change of version.
- **Marketplace gateway** (`CircuitBreaker`, `Gateway`, `GatewayRuns`): one gateway call decides from
  the account, its mode, the emergency stops, the breakers and the ledger of attempts whether a write
  reaches the adapter. Runs mix calls, probes, resets, stops and account changes under any adapter.
- **Money and statistics** (`Money`, `Pricing`, `OfferPolicy`, `MarkdownPolicy`, `Statistics`,
  `ComparableSelection`): half-up rounding, the floor price, counters, markdowns and the z-score
  screen. Amounts are exact reals, counted in cents.
- **Versioned records** (`AgentJobs`, `Proposals`, `Scheduler`): transitions, approvals and schedules,
  each committed together with its audit events or history.
- **Effects on lossy or repeated input** (`EbayListing`, `ComparableImport`): a listing created over a
  connection that loses requests and responses, and imports that account for every row.

Objects whose methods change rows are classes here; each method is proved to compute a function of the
old tables, and the protocol results are proved about runs of those functions.

What each answer means is stated in the fields of its inputs, in both directions: when an offer is accepted,
which write reaches an adapter, how a job ends, when a failed one can be claimed again, which item a listing
is for, which cell of a row goes where.

Some promises of the code do not hold without a condition. The condition is proved exactly:

- Over all fees the minimum profit is guaranteed by pricing exactly when it is in whole cents
  (`Pricing.MinimumGuaranteedIffWholeCents`), and by counter-offers exactly when cost plus minimum profit is
  (`OfferPolicy.CountersGuaranteedIffWholeCents`). `Pricing.MinimumGuaranteedExactly` gives the condition at
  each net rate, `OfferPolicy.CountersGuaranteedExactly` under each fee, negative ones included.
- `*/n` schedules follow their grid exactly when n divides 60 (`Scheduler.EveryMinutesMeetsGridExactly`). A
  tick leaves a schedule due exactly when its timing does not move forward (`Scheduler.TickLeavesDueExactly`),
  and is undone exactly when a due schedule has no next run or a submission that does not validate
  (`Scheduler.TickFailsExactly`).
- A comparable import aborts exactly on too many rows, a NaN price that validation compares with zero, an
  unknown item, a source or actor that does not fit its column, the message of an invalid row that cannot be
  stored, or, when it writes, a new identity whose first valid row has a negative or NaN shipping price or a
  cell outside its column (`ComparableImport.AbortsExactly`). The columns are those of PostgreSQL, the only
  production database; which characters it cannot store is a parameter.
- A listing that is found again is reported as success; it is live exactly when every offer of its SKU was
  before the call (`EbayListing.ListedIsLiveExactly`, with a run in `EbayListing.LostPublishIsReportedAsListed`).
- While a breaker does not close, T seconds record at most threshold + T / cooldown failures and one more for
  each failing probe that ends while it is open. Runs attain that sum, so the first two terms alone bound all runs
  with a given number of such probes exactly when it is zero
  (`CircuitBreaker.RecordedFailuresExactly`, `CircuitBreaker.WorstIsAttained`).

## Model

| member | source | states |
|---|---|---|
| `MediaJobs.MediaProcessingJobRepository.Enqueue` | goliath/db/ingestion_repositories.py:112-127 | an active job of the media is returned unchanged, otherwise a fresh queued row is the only change |
| `MediaJobs.MediaProcessingJobRepository.FindCandidate` | goliath/db/ingestion_repositories.py:144-153 | the row found is eligible and no eligible row is older; none is found exactly when no row is eligible |
| `MediaJobs.MediaProcessingJobRepository.UpdateClaimed` | goliath/db/ingestion_repositories.py:157-177 | a snapshot that still matches takes the job under a token never drawn before; a stale one changes nothing |
| `MediaJobs.MediaProcessingJobRepository.Claim` | goliath/db/ingestion_repositories.py:140-177 | an undisturbed claim takes the oldest eligible job, and returns none only when nothing is eligible |
| `MediaJobs.MediaProcessingJobRepository.CompleteSuccess` | goliath/db/ingestion_repositories.py:179-188 | accepted exactly for the worker and token stored on the row, and then ends the job; otherwise an error and no change |
| `MediaJobs.MediaProcessingJobRepository.CompleteFailure` | goliath/db/ingestion_repositories.py:190-216 | accepted exactly for the stored worker and token; requeues or fails at the attempt limit as FailureBacksOff says |
| `MediaJobs.MediaProcessingJobRepository.ReapExpired` | goliath/db/ingestion_repositories.py:218-240 | every expired running row is requeued or failed with its version unchanged, every other row is untouched, and the count is the number of expired rows |
| `MediaProtocol.RunsKeepInv` | goliath/db/ingestion_repositories.py:140-252 | in every interleaving of split claims, completions, crashes and reaps: RUNNING exactly when holder, token and expiry are set, queued implies attempts left, attempt rows are exactly 1..attempts, one active job per media, snapshots of an unchanged version are exact |
| `MediaProtocol.OneHolder` | goliath/db/ingestion_repositories.py:242-252 | of two worker processes with a lease on one job at most one is still accepted |
| `MediaProtocol.ChangeMakesTokensStale` | goliath/db/ingestion_repositories.py:157-240 | a reap, claim or completion of a job makes every token drawn before it stale for that job |
| `MediaProtocol.StaleForEver` | goliath/db/ingestion_repositories.py:218-252 | a stale token is never accepted again in the rest of any run, although reaping leaves the version alone |
| `MediaProtocol.LateWorkerChangesNothing` | goliath/domain/media_service.py:356-388 | in every run, once a step has changed a job, a worker whose lease was drawn before it leaves jobs, attempts, media, hashes and derivations as they are, whenever and however it reports |
| `MediaProtocol.PublishesAtMostOnce` | goliath/domain/media_service.py:419-479 | over every run two steps that commit a publishing transaction of one media are the same step, an expired worker beside its successor included |
| `MediaProtocol.SucceededAfterPublishing` | goliath/domain/media_service.py:384-402 | in every run a SUCCEEDED job comes after a step that committed the publishing transaction of its media |
| `MediaProtocol.PublishedOnceKept` | goliath/domain/media_service.py:419-478 | one hash, one audit event and each derivation once, exactly for the published media |
| `MediaProtocol.ChangeSpendsBudget` | goliath/db/ingestion_repositories.py:154-240 | 2*(max_attempts - attempts) + [RUNNING] drops at every change of a job and stays nonnegative |
| `MediaProtocol.AttemptsAreClaims` | goliath/db/ingestion_repositories.py:157-169 | in every run the attempts of a job equal its committed claims, and its changes are paid for by the budget |
| `MediaProtocol.JobsTerminate` | goliath/domain/media_service.py:338-388 | a job changes at most 2*max_attempts times in any run |
| `MediaProtocol.MediaTables.PublishMedia` | goliath/domain/media_service.py:419-479 | publishes exactly when the media exists and has no hash yet; otherwise nothing of the transaction remains |
| `CircuitBreaker.CircuitBreakerRepository.IsOpen` | goliath/db/marketplace_repositories.py:971-986 | open exactly when the stored state is OPEN after an OPEN breaker whose probe is due was half-opened; no other row changes |
| `CircuitBreaker.CircuitBreakerRepository.RecordFailure` | goliath/db/marketplace_repositories.py:988-1002 | counts the failure on the row, made when missing, and opens it for one cooldown when the count reaches the threshold and it is not open |
| `CircuitBreaker.CircuitBreakerRepository.RecordSuccess` | goliath/db/marketplace_repositories.py:1004-1015 | closes a half-open breaker with a count of zero and leaves every other breaker alone |
| `CircuitBreaker.CircuitBreakerRepository.Reset` | goliath/db/marketplace_repositories.py:1017-1026 | closes the named breaker with a count of zero, or reports that it does not exist |
| `CircuitBreaker.CircuitBreakerRepository.StartProbe` | goliath/marketplace/worker.py:430-449 | half-opens exactly the non-closed breakers of the account whose probe is due, and returns them |
| `CircuitBreaker.CircuitBreakerRepository.FinishProbe` | goliath/marketplace/worker.py:456-472 | records the outcome on each candidate that still exists and on no other breaker |
| `CircuitBreaker.ClosedExactlyUnderThreshold` | goliath/db/marketplace_repositories.py:971-1026 | in every run of calls, probes and resets a breaker is CLOSED exactly while failure_count < threshold, and otherwise its probe is one cooldown after its opening |
| `CircuitBreaker.FailureReopens` | goliath/db/marketplace_repositories.py:988-1000 | one counted failure re-opens a half-open breaker for a whole cooldown |
| `CircuitBreaker.FailuresAreSpaced` | goliath/db/marketplace_repositories.py:971-1026 | without a closing in between, T seconds hold at most threshold + T/cooldown failures recorded while the breaker is not open |
| `CircuitBreaker.RunRecords` | goliath/db/marketplace_repositories.py:988-1002 | without a closing, failure_count rises over a run by exactly the failures recorded while the breaker is not open and those of probes that end while it is |
| `CircuitBreaker.RecordedFailuresBound` | goliath/db/marketplace_repositories.py:971-1026 | without a closing, T seconds record at most threshold + T/cooldown failures and one more for each late probe |
| `CircuitBreaker.WorstIsAttained` | goliath/marketplace/worker.py:447-472 | for every threshold, cooldown and number of late probes, each started before it ends, some run records exactly that many failures |
| `CircuitBreaker.RecordedFailuresExactly` | goliath/db/marketplace_repositories.py:971-1026 | k + T/cooldown bounds all runs with this many late failures exactly when k is at least threshold plus late failures; the plain bound holds exactly when none is late |
| `CircuitBreaker.LateProbeExceedsBound` | goliath/marketplace/worker.py:447-472 | the smallest run beyond the plain bound: three failures in one cooldown under a threshold of one |
| `Gateway.MarketplaceGateway.CheckWrite` | goliath/marketplace/gateway.py:374-447 | the stops, the four breakers, the limits, status and mode are checked in the order of the code, and a limit rolls the half-opened breakers back |
| `Gateway.MarketplaceGateway.Execute` | goliath/marketplace/gateway.py:117-304 | the new accounts, breakers, attempts and adapter calls and the receipt of one call are those of the specification the run theorems are about |
| `Gateway.MarketplaceGateway.HandleFailure` | goliath/marketplace/gateway.py:472-532 | a failure leaves a salted attempt, an authentication failure bars the account, and only the categories that are not excused are counted on the account and operation breakers |
| `Gateway.FirstSuccess` | goliath/marketplace/gateway.py:449-470 | a successful attempt under the very key is found exactly when there is one |
| `GatewayRuns.CallIsAllowed` | goliath/marketplace/gateway.py:117-304 | a step sends at most one write, only with no covering stop, no open covering breaker, an autonomous mode, an allowed status, every limit kept and no recorded success; it leaves exactly one attempt, under the plain key exactly when it succeeded |
| `GatewayRuns.OneSuccessPerKey` | goliath/marketplace/gateway.py:262-276 | in every run at most one write succeeds under each idempotency key |
| `GatewayRuns.ReplayExactly` | goliath/marketplace/gateway.py:159-163 | a write that passes its checks is answered from the ledger exactly when an earlier write succeeded under its key, so failed and shadowed attempts suppress nothing |
| `GatewayRuns.PacedBoundsWindows` | goliath/db/marketplace_repositories.py:441-455 | a limit checked against the window behind each call bounds every window, wherever it starts |
| `GatewayRuns.WindowsAreBounded` | goliath/marketplace/gateway.py:400-432 | in every run: at most operation_rate_limit_per_minute writes of an account in any 60 s, max_publish_per_hour new listings over all accounts and maximum_writes_per_hour canary writes of an account in any hour |
| `GatewayRuns.WritesNeedModeAndStatus` | goliath/marketplace/gateway.py:434-447 | in every run every write went out in an autonomous mode from an account whose status allows writes |
| `GatewayRuns.StopHolds` | goliath/db/marketplace_repositories.py:1045-1076 | between the activation of a stop and its release nothing is sent under a stop of everything, and nothing of the account, marketplace, operation or resource that it names |
| `GatewayRuns.ReauthenticationIsRequired` | goliath/marketplace/gateway.py:496-498 | after an authentication failure the account sends no write until its row is changed by an operator |
| `GatewayRuns.OpenBreakerHolds` | goliath/marketplace/gateway.py:387-399 | from the opening of a breaker until its cooldown ends, unless it is reset, nothing is sent under the global one, and nothing of the marketplace, account or operation that it stands for |
| `GatewayRuns.RunProjects` | goliath/marketplace/gateway.py:612-662 | what a run of the gateway does to one breaker is a run of that breaker alone |
| `GatewayRuns.BreakersInRuns` | goliath/marketplace/gateway.py:612-662 | in every gateway run each breaker is CLOSED exactly while its failures are under its threshold |
| `GatewayRuns.GatewayFailuresAreSpaced` | goliath/marketplace/gateway.py:515-521 | a gateway run lasting T seconds in which a breaker does not close raises its failure_count by at most threshold + T/cooldown and the late probes |
| `GatewayRuns.PlainBoundWithoutLateProbes` | goliath/marketplace/gateway.py:612-655 | the same with threshold + T/cooldown alone when every failing probe ends while the breaker is not open |
| `Money.ToCentsError` | goliath/domain/pricing.py:21-22 | rounding half up moves an amount by at most half a cent, and a nonnegative one down by strictly less |
| `Pricing.MarketWithinComparables` | goliath/domain/pricing.py:97-118 | the market reference exists exactly when there are comparables, lies within their price range, and ignores the kind whose weight is zero |
| `Pricing.PricingSucceeds` | goliath/domain/pricing.py:133-161 | under the configured bounds pricing never fails; the minimum is the exact floor price rounded half up and the warning is given exactly when the price is raised to it |
| `Pricing.ProfitIsLinear` | goliath/domain/pricing.py:68-82 | the profit is the minimum profit at the exact floor and changes by the net rate per cent of price |
| `Pricing.RecommendedClearsFloor` | goliath/domain/pricing.py:152-156 | the recommended price is whole cents, not under the minimum price, and misses the minimum profit by less than half a cent |
| `Pricing.ReportedProfitReachesMinimum` | goliath/domain/pricing.py:191-197 | the reported profit is never below a whole-cent minimum profit, despite both roundings |
| `Pricing.MinimumGuaranteedIffWholeCents` | goliath/domain/pricing.py:136-197 | over all net rates the minimum profits that every valid pricing reports are exactly those in whole cents |
| `Pricing.MinimumGuaranteedExactly` | goliath/domain/pricing.py:136-197 | at one net rate they are exactly those that lack at most (1 - rate)/2 of a cent to whole cents |
| `Pricing.PricesUnderMinimumMiss` | goliath/domain/pricing.py:150-152 | every price a cent or more under the minimum price misses the minimum profit |
| `Pricing.PricesAreOrdered` | goliath/domain/pricing.py:154-160 | 0 <= minimum <= fast sale <= recommended |
| `Pricing.ProceedsMinusProfitIsCost` | goliath/domain/pricing.py:162-196 | the two separately rounded amounts differ by exactly a whole-cent cost basis |
| `OfferPolicy.NetAtFloor` | goliath/marketplace/policy.py:83-87 | a price at or above the rounded floor nets at least the required amount less half a cent |
| `OfferPolicy.CounterClearsMinimum` | goliath/marketplace/policy.py:114-118 | every counter is whole cents, above the offer, and yields the minimum profit when cost plus minimum profit is whole cents |
| `OfferPolicy.CountersGuaranteedIffWholeCents` | goliath/marketplace/policy.py:81-118 | over all fees from 0 to under 1 the counters under a cost and a minimum profit all yield that profit exactly when their sum is whole cents |
| `OfferPolicy.CountersGuaranteedExactly` | goliath/marketplace/policy.py:81-118 | under any one fee, negative or over one included, they all do exactly when the fee is one, or under one with their sum lacking at most fee/2 of a cent to whole cents |
| `OfferPolicy.CounterIsFinal` | goliath/marketplace/policy.py:105-125 | a buyer who takes the counter is not countered again |
| `MarkdownPolicy.Evaluate` | goliath/marketplace/policy.py:182-219 | the loop over the thresholds and the clamps computes the markdown decision the run theorems are about |
| `MarkdownPolicy.BracketIsGreatestReached` | goliath/marketplace/policy.py:189-193 | the percent is that of the greatest threshold the age has reached |
| `MarkdownPolicy.MarkdownIsBounded` | goliath/marketplace/policy.py:199-219 | a markdown lowers the price, not under the minimum, by at most the daily percent plus half an increment, and lands on the grid or the minimum |
| `MarkdownPolicy.RunFalls` | goliath/marketplace/policy.py:207-219 | fed back, the prices fall strictly and stay at or above the minimum |
| `MarkdownPolicy.RunIsShort` | goliath/marketplace/policy.py:204-219 | at most ceil((start - minimum)/increment) + 1 markdowns in any run |
| `Statistics.Chebyshev` | goliath/domain/comparables.py:314-319 | of n values k > 0 lie beyond z deviations only if k z^2 < n |
| `Statistics.Samuelson` | goliath/domain/comparables.py:314-319 | no value lies more than sqrt(n - 1) deviations from the mean |
| `ComparableSelection.SelectForPricing` | goliath/domain/comparables.py:293-312 | the first loop and the screen compute the selection the lemmas are about |
| `ComparableSelection.ScreenOutliers` | goliath/domain/comparables.py:314-331 | the second loop splits the prescreened comparables, or raises at the first included one that is no valid observation |
| `ComparableSelection.ZScoreOnSquares` | goliath/domain/comparables.py:317-319 | the test on squares the loop makes is the z-score test |
| `ComparableSelection.SelectionPartitions` | goliath/domain/comparables.py:304-337 | included and excluded entries together list every input exactly as often as it was given |
| `ComparableSelection.IncludedExactly` | goliath/domain/comparables.py:304-331 | included are exactly the inputs that no rule excludes and whose price is no outlier |
| `ComparableSelection.FewAreDropped` | goliath/domain/comparables.py:314-321 | if k > 0 of n prescreened comparables are dropped as outliers then k z^2 < n |
| `ComparableSelection.SomeAreKept` | goliath/domain/comparables.py:314-331 | with z >= 1 a nonempty set is never emptied |
| `ComparableSelection.SmallSetsKeepAll` | goliath/domain/comparables.py:314-331 | nothing is dropped when n <= z^2 + 1 |
| `AgentJobs.JobStore.Transition` | goliath/db/repositories.py:357-417 | moves the row exactly when the target may follow the status read and the row still has that version and status |
| `AgentJobs.JobStore.SelectQueued` | goliath/db/repositories.py:420-425 | the first twenty queued rows in the order of the queue, as they are |
| `AgentJobs.JobStore.ClaimOldest` | goliath/db/repositories.py:419-435 | a claim that nothing interrupts takes the oldest queued job with its start event, and none only when none is queued |
| `AgentJobs.JobStore.ClaimNext` | goliath/db/repositories.py:426-435 | of candidates read at any earlier time, claims the first whose transition still applies, with its start event, and none only when none applies |
| `AgentJobs.JobStore.Cancel` | goliath/orchestration/service.py:129-197 | a cancellation from a record read earlier commits with its events or leaves nothing |
| `AgentJobs.JobStore.Finish` | goliath/orchestration/service.py:211-265 | a finish from a record read earlier commits with its end event or leaves nothing; a job read as cancelled keeps its status |
| `AgentJobs.RunIsPath` | goliath/db/repositories.py:272-300 | in every interleaving of stale readers each status follows the one before along VALID_TRANSITIONS and each transition raises the version by one |
| `AgentJobs.VersionCountsMoves` | goliath/db/repositories.py:357-417 | between two states of a run the version has risen by exactly the number of transitions |
| `AgentJobs.TerminalIsFinal` | goliath/db/repositories.py:272-300 | nothing leaves a terminal status |
| `AgentJobs.OneEndEventPerJob` | goliath/orchestration/service.py:211-265 | in every interleaving of the units of work of the job service an ended job has exactly the end event of its status and a job not ended has none |
| `AgentJobs.OneWinnerPerRead` | goliath/db/repositories.py:380-417 | once a transition from a version is committed no other from that version ever applies, over both claim paths |
| `Proposals.DomainStore.ApproveProposal` | goliath/domain/service.py:1029-1092 | decide, execute and mark in one session, or an error with everything as it was |
| `Proposals.DomainStore.ChangeDraftStatus` | goliath/db/domain_repositories.py:622-652 | the next version with its snapshot, or an error: an approved draft may only be superseded |
| `Proposals.DomainStore.ExpireProposals` | goliath/db/domain_repositories.py:805-816 | exactly the pending proposals past their expiry are expired and counted |
| `Proposals.ApprovalOutcome` | goliath/domain/service.py:1049-1092 | an approved inventory proposal is executed, moving the item by one version, exactly when it is current; a stale one fails with the item untouched |
| `Proposals.OutcomesInRuns` | goliath/domain/service.py:1029-1092 | in every run each EXECUTED inventory proposal was executed by one earlier step that found its item at current_version and left it with the payload one version on, and each EXECUTION_FAILED one was stale at a step that changed no item |
| `Proposals.DomainStore.ChangeQuantity` | goliath/db/repositories.py:158-167 | sets the quantity alone, without a new version, or an error for a negative quantity or a missing item |
| `Proposals.VersionCountsChanges` | goliath/db/repositories.py:158-206 | in every run the version of an item has risen by exactly the number of its changes, those of its quantity apart |
| `Proposals.OneExecutionPerVersion` | goliath/domain/service.py:1029-1092 | in every run at most one inventory proposal per item and version is ever executed |
| `Proposals.DecidedIsFinal` | goliath/db/domain_repositories.py:818-862 | only a pending proposal ever changes, and only in its status |
| `Proposals.DecidedStays` | goliath/db/domain_repositories.py:818-862 | in every run a decided proposal stays as it was decided |
| `Proposals.HistoriesStayExact` | goliath/db/domain_repositories.py:566-652 | in every run the history of a draft is exactly versions 1..version, ends in its status, and each approved entry with a successor is followed by a superseded one |
| `Scheduler.HourlyAndDailyAreLeast` | goliath/orchestration/scheduler.py:77-80 | @hourly and @daily give the least local hour or midnight strictly after their argument, for every fixed offset |
| `Scheduler.EveryMinutesIsLeast` | goliath/orchestration/scheduler.py:81-85 | */n gives the least grid minute strictly after its argument when n divides 60 |
| `Scheduler.EveryMinutesMeetsGridExactly` | goliath/orchestration/scheduler.py:81-85 | */n follows its grid from every instant exactly when n divides 60 |
| `Scheduler.SchedulerService.Tick` | goliath/orchestration/scheduler.py:223-261 | a tick visits every schedule in one unit of work; an error for any due schedule, of its next run or of its submission, leaves schedules, jobs and submissions as they were |
| `Scheduler.SchedulerService.RunNow` | goliath/orchestration/scheduler.py:211-221 | creates the job of the schedule and the second unless it exists, for marketplace schedules alone |
| `Scheduler.TickFailsExactly` | goliath/orchestration/scheduler.py:230-257 | a tick is undone exactly when some due schedule has no computable next run or must submit a job that does not validate |
| `Scheduler.TickMovesRows` | goliath/orchestration/scheduler.py:232-258 | due rows get their next run and their job, all other rows stay |
| `Scheduler.TickLeavesDueExactly` | goliath/orchestration/scheduler.py:232-258 | after a tick a schedule is still due exactly when it was due with an interval that is not positive or a negative step in minutes |
| `Scheduler.SecondTickIsIdle` | goliath/orchestration/scheduler.py:223-261 | when every timing moves forward a second tick at the same instant creates nothing and changes nothing |
| `Scheduler.TickCreatesExactly` | goliath/orchestration/scheduler.py:235-255 | after a tick the jobs are the old ones and those of the due marketplace schedules, and the count reported is the number of new jobs and submissions |
| `Scheduler.OneJobPerSecond` | goliath/orchestration/scheduler.py:263-327 | any mix of ticks and manual runs gives a schedule at most one marketplace job per second |
| `EbayListing.EbayTransport.Send` | goliath/marketplace/ebay.py:157-214 | the retry loop is the bounded exchange the lemmas are about |
| `EbayListing.SendIsBounded` | goliath/marketplace/ebay.py:157-184 | a request goes out at least once, at most max_retries + 1 times if it is safe to retry, and once otherwise |
| `EbayListing.EbayMarketplaceAdapter.FindOfferBySku` | goliath/marketplace/ebay.py:760-772 | a missing page means no offer, two offers a conflict, any other failure is passed on |
| `EbayListing.EbayMarketplaceAdapter.CreateListing` | goliath/marketplace/ebay.py:518-582 | validation, lookup, item, offer, publication and read-back in that order, stopping at the first failure |
| `EbayListing.LookupIsTrue` | goliath/marketplace/ebay.py:760-772 | however often it is retried, a lookup that does not fail finds exactly the offers the remote holds, given that 404 and empty pages are true |
| `EbayListing.CreateIsSentOnce` | goliath/marketplace/ebay.py:518-560 | a call sends its create request at most once, and never while the remote holds an offer of the SKU |
| `EbayListing.CallAddsOnlyWhereNone` | goliath/marketplace/ebay.py:518-582 | a call adds at most one offer, under its own SKU, and only where there was none |
| `EbayListing.OneOfferPerSku` | goliath/marketplace/ebay.py:518-582 | over any sequence of calls, wherever requests and responses are lost, the remote holds at most one offer per SKU |
| `EbayListing.ListedIsLiveExactly` | goliath/marketplace/ebay.py:522-582 | success names the only offer of the SKU, at the requested price when there was none; it is live exactly when every offer of the SKU held before the call was |
| `EbayListing.LostPublishIsReportedAsListed` | goliath/marketplace/ebay.py:522-531 | after a lost publish request the next call reports success for an offer that is not live |
| `ComparableImport.ValidateRows` | goliath/domain/comparables.py:111-112 | raises exactly when the validation of some row does, and otherwise tells whether some row is invalid |
| `ComparableImport.WriteRow` | goliath/domain/comparables.py:129-191 | one row is recorded as failed, unwritten, duplicate or imported, or aborts with what the store or the database refuses |
| `ComparableImport.WriteRows` | goliath/domain/comparables.py:128-191 | the loop over the rows keeps the store, the records and the counters of the specification, or aborts |
| `ComparableImport.ImportStore.ImportRows` | goliath/domain/comparables.py:97-228 | one transaction with its summary, or an exception that leaves nothing: too many rows, a NaN compared with zero, a negative shipping price, an unknown item, or a value outside its column; stored identities stay unique |
| `ComparableImport.ImportConserves` | goliath/domain/comparables.py:125-210 | every row has exactly one record, numbered in order, and total = imported + failed + duplicates + unwritten |
| `ComparableImport.IdentitiesStayUnique` | goliath/db/domain_repositories.py:440-448 | no import stores a second comparable of an item, marketplace and identity |
| `ComparableImport.AllOrNothing` | goliath/domain/comparables.py:112-126 | an all-or-nothing import with an invalid row stores no comparable |
| `ComparableImport.ReimportIsNoOp` | goliath/domain/comparables.py:111-228 | importing the same rows again, in any mode, imports none and leaves the comparables unchanged |
| `ComparableImport.WriteAbortsExactly` | goliath/domain/comparables.py:128-191 | the writing loop aborts exactly at a message that cannot be stored, or at the first valid row of an identity not stored whose shipping price is negative or NaN or one of whose cells is outside its column |
| `ComparableImport.AbortsExactly` | goliath/domain/comparables.py:97-228 | an import aborts exactly when it has too many rows, a compared sold or listed price is NaN, its item is unknown, its source or actor do not fit, a message cannot be stored, or it writes and the loop aborts at a valid row |
| `MediaJobs.FailureBacksOff` | goliath/db/ingestion_repositories.py:190-216 | a failed job with attempts left can be claimed exactly from the backoff times its attempts after the failure on; one without never again |
| `MediaJobs.ReapedEligible` | goliath/db/ingestion_repositories.py:218-240 | a reaped job with attempts left can be claimed exactly from the reap on, with its version as it was |
| `MediaJobs.ReapedExactly` | goliath/db/ingestion_repositories.py:221-233 | a reap touches exactly the running jobs whose lease has run out |
| `MediaJobs.ClaimedUntilExpiry` | goliath/db/ingestion_repositories.py:157-177 | a new job can be claimed at once; a claimed one carries worker and token and expires exactly at the end of its lease |
| `MediaJobs.AcceptedExactly` | goliath/db/ingestion_repositories.py:242-252 | a completion is accepted exactly from the worker and with the token on the row |
| `MediaProtocol.BackoffHolds` | goliath/db/ingestion_repositories.py:211-213 | in every run no worker selects a failed job before its backoff has passed, while its row is as the failure left it |
| `MediaProtocol.SelectsOldest` | goliath/db/ingestion_repositories.py:144-153 | in every run a worker selects only a queued job whose waiting time is over, and none older waits |
| `MediaProtocol.OneLiveJob` | goliath/db/ingestion_repositories.py:114-126 | in every run a media has at most one job that is queued, running or succeeded |
| `MediaProtocol.PublishingLeaves` | goliath/domain/media_service.py:419-479 | a committed publication leaves the media processed one version on, its hash, its audit event and all three derivations |
| `MediaProtocol.MarkingLeaves` | goliath/domain/media_service.py:390-407 | a processed media is left alone and ends the work, any other is marked as processing one version on |
| `MediaProtocol.ReportLeaves` | goliath/domain/media_service.py:358-387 | an accepted report ends the attempt row with the job, and a failure marks a media still in processing as failed |
| `CircuitBreaker.LetsThroughExactly` | goliath/db/marketplace_repositories.py:977-984 | an open breaker lets a call through exactly from one cooldown after its opening on |
| `CircuitBreaker.SuccessCloses` | goliath/db/marketplace_repositories.py:1004-1015 | a success closes exactly a half-open breaker, or an open one whose call was let through, with a count of zero; a closed one keeps its failures |
| `CircuitBreaker.OpensAtThreshold` | goliath/db/marketplace_repositories.py:991-1000 | a closed breaker opens exactly with the failure that reaches its threshold |
| `CircuitBreaker.ProbeStartsExactly` | goliath/marketplace/worker.py:433-448 | a probe half-opens a breaker exactly from one cooldown after its opening on |
| `GatewayRuns.WritesNeedKeys` | goliath/marketplace/gateway.py:134-142 | exactly thirteen operations are refused without a key |
| `GatewayRuns.ModeIs` | goliath/marketplace/gateway.py:343-361 | an override of the operation wins, then the first configured account that matches, then the mode of the account |
| `GatewayRuns.ReachesExactly` | goliath/marketplace/gateway.py:117-205 | a write reaches the adapter exactly when key, scope, account, mode, status, stops, breakers, limits, canary lists, ledger and capabilities all allow it, in the fields of the request |
| `GatewayRuns.BlocksAreTrue` | goliath/marketplace/gateway.py:363-447 | a block names a reason that holds after all earlier ones did not, and a limit leaves every breaker as it was |
| `GatewayRuns.ReadsPass` | goliath/marketplace/gateway.py:372-375 | a read is blocked exactly when automation is disabled, and touches no breaker, stop or call |
| `GatewayRuns.CallIsOfRequest` | goliath/marketplace/gateway.py:205-209 | the write that goes out has the account, marketplace, operation, resource and key of the request |
| `GatewayRuns.FailureLeaves` | goliath/marketplace/gateway.py:485-521 | a failed write bars the account exactly after an authentication failure, and counts on both breakers exactly unless one of eight categories excuses it |
| `GatewayRuns.SuccessLeaves` | goliath/marketplace/gateway.py:262-304 | a successful write is reported ok exactly when verified, is stored under its own key and leaves both breakers closed |
| `GatewayRuns.OthersLeave` | goliath/marketplace/gateway.py:155-203 | a write that does not reach the adapter leaves a shadowed attempt in the shadow modes, or nothing |
| `Pricing.AdjustmentsScale` | goliath/domain/pricing.py:120-133 | the condition, size and stale adjustments each scale the base price, the stale one for stale items alone |
| `Pricing.CostPlusEarnsMargin` | goliath/domain/pricing.py:124-129 | without comparables the base price earns the target margin on the cost, the item's own where given and not zero |
| `Pricing.WeightsShare` | goliath/domain/pricing.py:110-112 | the market reference divides the distance between the two means against the weights |
| `Pricing.MeansAreOfKind` | goliath/domain/pricing.py:97-106 | each mean times its count is the sum of the prices of its kind |
| `Pricing.NetProceedsAre` | goliath/domain/pricing.py:68-82 | the proceeds are what the discount and then the fees leave, less the three costs |
| `Pricing.ReportsRecommended` | goliath/domain/pricing.py:154-202 | proceeds and profit of the recommended price are reported to the cent, and a warning exactly without comparables |
| `Pricing.FastSaleIs` | goliath/domain/pricing.py:158-160 | the fast-sale price is the recommended one scaled down to within half a cent, or the minimum where that is more |
| `OfferPolicy.AnswersExactly` | goliath/marketplace/policy.py:61-125 | when each of the five answers is given, in profit, margin and discount without division |
| `OfferPolicy.MinimumPriceIs` | goliath/marketplace/policy.py:83-87 | the minimum price rounds the price of which the fee leaves cost, minimum profit, fixed fee and shipping |
| `OfferPolicy.CounterIsTight` | goliath/marketplace/policy.py:114-118 | a counter is the minimum price, or the raised offer to within half a cent when that is more |
| `MarkdownPolicy.PercentIsLeast` | goliath/marketplace/policy.py:199-202 | the percent is the least of the bracket's, the daily cap and what the total cap leaves |
| `MarkdownPolicy.TotalCapIsKept` | goliath/marketplace/policy.py:200-201 | reductions so far and the new one stay within the total cap unless it was passed before |
| `MarkdownPolicy.MarkedDownExactly` | goliath/marketplace/policy.py:182-219 | a markdown is made exactly when the cooldown is over, a bracket is reached and the rounded and floored price is lower |
| `MarkdownPolicy.NewPriceIs` | goliath/marketplace/policy.py:203-219 | the new price is the minimum or lies within half an increment of the price less its percent |
| `ComparableSelection.PassesExactly` | goliath/domain/comparables.py:340-358 | a comparable passes exactly when every rule, in its fields, lets it |
| `ComparableSelection.ReasonsHold` | goliath/domain/comparables.py:304-321 | every exclusion a selection records gives a reason that holds |
| `ComparableSelection.OutlierByZScore` | goliath/domain/comparables.py:314-321 | a price is dropped exactly when it lies more than z standard deviations from the mean |
| `ComparableSelection.SelectionFailsExactly` | goliath/domain/comparables.py:322-328 | a selection fails exactly when it would include a comparable without a positive price or with a reliability outside 0 to 1 |
| `Statistics.VarianceByMoments` | goliath/domain/comparables.py:314-315 | mean and variance in terms of the sum and the sum of squares |
| `AgentJobs.FinishSays` | goliath/orchestration/service.py:211-265 | a finish of a running job leaves Succeeded, Failed, TimedOut or Cancelled exactly as its process ended, with that event |
| `AgentJobs.EndedByOutcome` | goliath/orchestration/service.py:236-265 | in every interleaving a job that succeeded or timed out was ended by a finish of its running process with that outcome, a failed or cancelled one by such a finish, by routing or by a request |
| `AgentJobs.EndEventsSay` | goliath/orchestration/service.py:244-263 | in every interleaving the end events of a job are the one that names its status, or none |
| `AgentJobs.CancelSays` | goliath/orchestration/service.py:129-180 | a cancellation cancels a current job that has not ended, notes one that has, and changes nothing from a stale record |
| `AgentJobs.TransitionsAre` | goliath/db/repositories.py:272-300 | exactly eleven pairs of statuses are transitions |
| `Proposals.EditsExactly` | goliath/db/repositories.py:169-206 | an edit goes through exactly for writable fields of an item at the expected version |
| `Proposals.ExecutionWritesPayload` | goliath/domain/service.py:1068-1073 | in every run an executed inventory proposal wrote each field of its payload into its item, one version on |
| `Proposals.ApprovalFailsExactly` | goliath/domain/service.py:1029-1092 | an approval is refused exactly when missing, not pending, expired, not writable on a current item, or for a current draft approved already |
| `Proposals.DraftApprovalOutcome` | goliath/domain/service.py:1081-1090 | approving a current draft approves it at its next version with that entry, a stale one fails with every draft as it was |
| `Proposals.DecisionsAre` | goliath/db/domain_repositories.py:818-862 | a rejection or replacement goes through exactly for a pending proposal, a rejection in time |
| `Proposals.ExpiresExactly` | goliath/db/domain_repositories.py:805-816 | exactly the pending proposals whose time has come expire |
| `Proposals.RequestedReviewIsApprovable` | goliath/domain/service.py:904-935 | a requested review is at the version it leaves the draft in, so approving it in time approves the draft |
| `Scheduler.SubmitsExactly` | goliath/orchestration/scheduler.py:238-255 | a due schedule outside the marketplace submits one run, or its catch-up limit up to a hundred; any other none |
| `Scheduler.KeysAreSeconds` | goliath/orchestration/scheduler.py:263-270 | two runs share a job exactly for the same schedule, operation, account and whole second |
| `Scheduler.RunNowCreates` | goliath/orchestration/scheduler.py:211-221 | a manual run leaves its job of that second, adds no other and moves no timing |
| `EbayListing.SkusAreItems` | goliath/marketplace/ebay.py:521 | two requests share an SKU exactly when they are for the same item |
| `EbayListing.NewItemIsNoReplay` | goliath/marketplace/ebay.py:521-531 | from a remote without offers a call for an item that no earlier call named is never a replay |
| `EbayListing.OffersAreItems` | goliath/marketplace/ebay.py:521-582 | a successful call of a sequence names an offer that an earlier call left exactly when it is for the same item |
| `EbayListing.SentExactlyWhenComplete` | goliath/marketplace/ebay.py:899-927 | a listing is sent exactly when its fields are complete, and otherwise fails validation with nothing sent |
| `EbayListing.SentAgainExactly` | goliath/marketplace/ebay.py:157-184 | a request goes out again exactly when nothing came back or one of four server errors did, and an attempt is left |
| `EbayListing.CategoriesOfStatuses` | goliath/marketplace/ebay.py:962-972 | which statuses each category of failure stands for |
| `ComparableImport.ImportedSale` | goliath/domain/comparables.py:148-164 | an imported comparable carries every cell of its row in its own field, identity and title cut to their widths |
| `ComparableImport.ValidExactly` | goliath/domain/comparables.py:230-273 | a row is valid exactly when its fields are |
| `ComparableImport.RaisesExactly` | goliath/domain/comparables.py:247-251 | validation raises exactly at the first compared price that is NaN in a row otherwise in order up to it |
| `ComparableImport.ErrorsHold` | goliath/domain/comparables.py:232-273 | every error of an invalid row holds of it and repeats the cell it is about |
| `ComparableImport.RowEndsAs` | goliath/domain/comparables.py:128-191 | a row ends failed, validated, skipped, duplicate or imported exactly as its validity, the mode and the store say |
| `ComparableImport.RefusedExactly` | goliath/db/domain_repositories.py:449-475 | what the store and the columns refuse, in the cells of the row |
| `MediaJobs.ClaimableExactly` | goliath/db/ingestion_repositories.py:144-169 | a candidate is a queued, eligible row that no eligible row is older than, and the update takes exactly a queued row at the version read |
| `MediaProtocol.ClaimWinsExactly` | goliath/db/ingestion_repositories.py:157-177 | in every run a claiming update wins exactly while its row is queued at the version it read, with its attempt row, and otherwise changes nothing |
| `MediaProtocol.PublishesExactly` | goliath/domain/media_service.py:419-479 | a marked media is published exactly when it is there without a hash; otherwise nothing changes |
| `CircuitBreaker.VersionCountsWrites` | goliath/db/marketplace_repositories.py:988-1026 | the version counts every failure and every closing, and nothing else |
| `CircuitBreaker.ProbesOwnBreakers` | goliath/marketplace/worker.py:433-448 | a probe half-opens exactly the due breakers of its account and of the operations of its account |
| `CircuitBreaker.ProbeEndsOnCandidates` | goliath/marketplace/worker.py:456-472 | the end of a probe records its answer on the candidates and on no other breaker |
| `GatewayRuns.CategoryNames` | goliath/marketplace/gateway.py:485-493 | under which name each failure of the adapter is reported |
| `GatewayRuns.CountsExactly` | goliath/db/marketplace_repositories.py:441-455 | the count of a limit takes in each attempt of its account or operation since the instant once |
| `AgentJobs.RoutingSays` | goliath/orchestration/service.py:41-94 | routing queues a pending job or ends it for the lack of an agent, with both events |
| `AgentJobs.CreationSays` | goliath/orchestration/service.py:41-60 | a submitted job starts pending at version one, a scheduled one queued at version two |
| `Proposals.QuantitySetExactly` | goliath/db/repositories.py:158-167 | a quantity is set exactly on an existing item to a number that is not negative, and nothing else changes |
| `Proposals.EditErrors` | goliath/db/repositories.py:169-206 | which error a refused edit gives, in the order of the checks |
| `Proposals.DraftErrors` | goliath/db/domain_repositories.py:622-634 | a draft is not moved exactly when missing, or approved and not being superseded |
| `Proposals.DecisionErrors` | goliath/db/domain_repositories.py:818-862 | which error a refused rejection, replacement or approval gives |
| `Scheduler.TickReportsFirst` | goliath/orchestration/scheduler.py:230-257 | an undone tick reports the failure of the first schedule that stops it |
| `EbayListing.DuplicatesConflict` | goliath/marketplace/ebay.py:767-771 | two offers of one SKU are a conflict, and nothing is sent after the lookup |
| `EbayListing.NamelessOfferIsPermanent` | goliath/marketplace/ebay.py:561-564 | a create answer that names no offer is a permanent failure |
| `EbayListing.ReadBackMismatch` | goliath/marketplace/ebay.py:565-570 | an offer stored at another price or quantity fails verification, one that cannot be read back fails validation |
| `ComparableImport.RowFailures` | goliath/db/domain_repositories.py:440-475 | which failure a row aborts with, in the order of the store |
| `ComparableImport.ImportFailures` | goliath/domain/comparables.py:107-122 | which failure an import aborts with before any row is written |
| `ComparableImport.ImportEndsAs` | goliath/domain/comparables.py:126-200 | when rows are written, and which status an import ends with |
| `ComparableImport.EchoRefusedExactly` | goliath/domain/comparables.py:129-137 | the message of an invalid row cannot be stored exactly when it repeats a cell with a character that cannot be |
| `GatewayRuns.RefusedFirst` | goliath/marketplace/gateway.py:134-151 | a write without a key, then a principal without a scope, then an unknown account is refused with nothing changed |
| `AgentJobs.SelectsUpToLimit` | goliath/db/repositories.py:420-425 | no more than the limit are selected, and under it every queued row is |

## Left out

- EbayListing.LookupIsTrue: assumes that the remote side answers a lookup with 404 or an empty page only when it holds no such offer; a stale answer would let a second offer be created.
- AgentJobs.JobStore.ClaimOldest: the order by `queued_at` and `created_at` is given as a sequence of job identifiers, because the model's rows carry no times.
- Interleavings inside a read-modify-write method: `reap_expired`, `complete_success`, `complete_failure`, `set_status`, `decide` and the breaker methods have no conditional update, so each is one step here.
- Interleavings inside one gateway call: `execute` is one step at one instant, and so is each half of a probe. Concurrent calls that pass the limits together are not covered.
- Adapters and brokers that raise, reads that carry an idempotency key of an earlier success (a uniqueness error in the source), gateway metrics, audit rows and exception tasks.
- `_result_verifies_write` and verification calls: whether a write was verified is part of the adapter's answer.
- Breakers of scope `item`, which the gateway does not consult.
- Tokens, salts, hashes and generated identifiers: fresh or injective values.
- Floating point and 28-digit decimal contexts: exact reals. The z-score is decided on squares, which is proved to be the same test; a standard deviation that rounds to zero is not captured.
- The expected margin, confidence and breakdown of a pricing result, and risk scores and reasons of policies: each is settled by reading one expression.
- Bookkeeping timestamps, error texts, and who decided a proposal and why.
- Image quality rows, review tasks and stored files of media processing: foreign effects of the same transaction. The media version update is part of that transaction and is not split.
- Agent selection, process control and worker leases beyond the claim itself (`LeaseRepository.acquire`).
- The two checks of a `status` value in an inventory change (a known status, and human authorisation for some): they only reject more changes. Field values are text.
- Zones with daylight saving, and instants outside the range of dates: a schedule's timing is given parsed, in a fixed offset; a text that does not parse is one timing that fails.
- Installing the marketplace schedules, creating schedules, and handing the submissions of a tick to the job service after its unit of work: the first is a loop over missing names. Which submissions validate is a parameter of a tick, because it depends on files.
- eBay answers that arrive after their request timed out, request headers, waiting times, and prices compared as text.
- Import rows that are no mappings of column names to cells, cells before they are parsed, and the rounding of a stored price to its column's last place. A concurrent import of the same identity (a uniqueness error) and a database that fails for reasons of its own.
- `WorkerDaemon`, `MarketplaceService` and the MCP server are not part of this model. The daemon's reaper can end an agent job FAILED with a recovery event only, so the result on end events is about the job service alone.
- The worker's other transactions in place: only its publishing transaction is a method; the rest are functions of the whole system, because what a worker holds between transactions is part of the protocol.
