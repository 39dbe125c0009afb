# Control-plane evidence: a verified model

The repository is a control plane whose services keep small, strict state machines over a key-value
store. This project models eleven of its files in Dafny and proves what holds over every input, every run
and, for the job store, every interleaving.

| files | system |
|---|---|
| `ReviewRepository`, `ReviewRefinement` | the two next-best-action review repositories: a dict, and Redis with indexes and a prune loop |
| `Telemetry`, `TelemetryWindows`, `LegacyTelemetry` | counter evidence: the window summary, the chaining over days, and the producer of the log |
| `ProducerWindows`, `ProducerClock`, `ProcessLosses` | producer and checker together: complete logs, clocks that step back, lost events |
| `Maintenance`, `BackupRoundTrip`, `BackupDocuments` | namespace export, validation, restore and verification |
| `Attribution`, `AttributionIntake`, `AttributionLedger`, `AttributionRuns` | identity registry, append-only ledger, exception queue, replay and backfill |
| `AttributionReport`, `AttributionTouches`, `AttributionCredit` | reconciliation, the quality gate and the three credit models |
| `JobStore`, `JobStoreRuns` | the optimistic job store as interleaved WATCH, GET and EXEC steps |
| `Journey`, `JourneyRules`, `JourneyProjection` | the journey projection over the sorted ledger |
| `Delivery`, `DeliveryRules`, `DeliveryRuns`, `Heartbeats` | signed receipts, retries, dead letters and heartbeats |
| `ProviderHealth`, `ProviderHealthRuns` | alert conditions and their synchronisation |
| `Orchestrator`, `OrchestratorRules`, `OrchestratorRuns`, `ApprovalRuns` | approval control |
| `Experiments`, `ExperimentRules`, `ExperimentRuns`, `ExperimentEdits` | experiment plans, observations, evaluation and approval |
| `Sorting`, `TextOrder`, `Stripping`, `Folding`, `Rounding`, `Decimals`, `Wrappers` | shared vocabulary |

A file that models code holds the data, the functions that say what an operation does, and the
operations themselves: loops and object updates are methods proved against those functions. The file
beside it holds the theorems about them. Where a theorem is stated through such a function, a lemma with
`Iff`, `Rule` or `Meaning` in its name says what the function gives in terms of the data alone.
`dafny verify dfyconfig.toml` checks everything.

## Assumptions

- The store is maps and arrival-ordered sequences, each service call is atomic (except in the job
  store), and a Redis key is live exactly while its expiry lies in the future.
- SHA-256 ids and digests are injective, except the truncated subject digest, whose collisions are
  analysed; HMAC (RFC 2104, section 2) is an ideal keyed function; generated ids never repeat, which
  for actions is the hypothesis `GeneratedIds` on a run.
- Floats are exact reals, with Python's half-to-even `round` modelled. Times are integers; that Python
  compares no zoned time with an unzoned one is modelled where source events are ingested, and
  elsewhere times are taken to be comparable.
- Payloads have passed the validation of their own model class; case folding is ASCII.

## Where the code does less than its documentation or its neighbours suggest

Each of these is proved with the exact condition under which the code does meet the expectation, and
all but the last with a concrete input or run on which it does not.

- `last_touch` is documented as crediting the latest Campaign touch, but the Campaign list is
  deduplicated by first occurrence (`LastTouchIsLatestIff`, `ReturningCampaignIsNotCredited`).
- Chaining of process counters over days is weaker than the check inside a window: across a cut one
  lost attempt is hidden by a health probe that opens the next window (`LossIsUnseenIff`,
  `ChainingSufficesIff`, `LossSlipsThrough`). A zero route counter passes the window and stops the
  evaluation (`PassedWindowRaisesIff`, `ZeroCountStopsEvaluation`).
- The checker sorts by time stamps, and the producer stamps with the wall clock after counting. Its
  only caller (apps/api/app/main.py:40-59) records one request at a time, so calls do not overlap,
  but a clock that steps back fails a log without any loss (`RoutesPassIff`, `AttemptsPassIff`,
  `SteppedClockFails`).
- A backup document with an empty list or unordered sorted-set entries passes validation, is written
  and then fails verification (`RestoreVerifiesIff`, `EmptyListNeverVerifies`).
- A registry larger than the listing cap can become ambiguous (`RegistryAgreesIff`,
  `CapRunIsAmbiguous`), and one more matching mapping turns redelivery of a known event into a
  conflict (`RedeliveryIsDuplicateIff`, `OneMoreMapping`).
- Not every changed payload under a known event id is noticed: the touchpoint drops the account and the
  canonical id (`ChangeIsNoticedIff`, `ChangePassesForDuplicate`).
- A failed job's status can be set back, its stage cannot (`FailedStatusIsLeftIff`,
  `RunLeavesFailedStatus`); progress above 100 makes the job unreadable for good (`UnreadableIff`,
  `RunBecomesUnreadable`).
- With a key id shorter than 3 or longer than 80 characters, or with zoned beside unzoned times in a
  batch, a delivery reaches the ledger before its receipt fails (`RunIsReceiptedIff`,
  `GrowthIsAccountedIff`, `ShortKeyIdLosesReceipt`, `MixedTimesLoseReceipt`).
- Two heartbeats of a producer received at one instant let its next sequence number repeat
  (`RunIsGuardedIff`, `TiesRepeatSequence`).
- A draft update keeps an evaluation made under the earlier plan (`EvaluationIsCurrentIff`,
  `RecordedWinnerCanBeOutdated`), and an approved plan can be edited after a preview
  (`ApprovedPlanStaysIff`, `ApprovedPlanCanChange`).
- Subjects whose truncated digests collide share one Redis index (`SubjectListsAgreeIff`).

## Model

Rows marked as supporting read a definition or special-case a neighbouring row; the others are the main results and
the operations.

| member | source | states |
|---|---|---|
| `ReviewRepository.MemoryRepository.Save` | services/agent_hub/npd_agent_hub/nba_review_repository.py:29-41 | refuses exactly a live id with other content; otherwise the dict is the old one with the record, minus the oldest records over the retention bound |
| `ReviewRepository.MemoryRepository.List` | services/agent_hub/npd_agent_hub/nba_review_repository.py:43-57 | the listing function of the dict, which `MemoryListIff` says row by row |
| `ReviewRepository.RedisRepository.Save` | services/agent_hub/npd_agent_hub/nba_review_repository.py:81-94 | the new record keys, global index and subject indexes after SET NX, the two ZADDs and the prune |
| `ReviewRepository.RedisRepository.Prune` | services/agent_hub/npd_agent_hub/nba_review_repository.py:100-113 | the prune loop removes the lowest-ranked overflow from the global index, its subject index and the records, one id at a time |
| `ReviewRepository.RedisRepository.List` | services/agent_hub/npd_agent_hub/nba_review_repository.py:115-129 | what reading an index from the top and loading its records returns, which `RedisListIff` says row by row |
| `ReviewRefinement.SaveAgrees` | services/agent_hub/npd_agent_hub/nba_review_repository.py:29-94 | one save keeps the Redis indexes in exact agreement with the dict, prune included |
| `ReviewRefinement.RunsAgree` | services/agent_hub/npd_agent_hub/nba_review_repository.py:29-94 | after every run of saves global index, subject indexes and record keys hold exactly the dict's live records, at most the retention bound of them |
| `ReviewRefinement.RepositoriesAgree` | services/agent_hub/npd_agent_hub/nba_review_repository.py:29-129 | after every run, with an injective subject digest, both repositories refuse the same saves and return identical listings for every subject and limit |
| `ReviewRefinement.SubjectListsAgreeIff` | services/agent_hub/npd_agent_hub/nba_review_repository.py:69-70 | without that assumption: the listings of a subject agree at every limit if and only if no other subject's row within reach of the largest listing shares its truncated digest |
| `ReviewRefinement.ListingsOfEveryRun` | services/agent_hub/npd_agent_hub/nba_review_repository.py:43-57 | in every reachable state, of both repositories and at every limit: a listing holds at most `limit` rows (one below 1, 1000 above it), live and matching, strictly newest first, and leaves a matching live row out only if it is full of newer ones |
| `ReviewRefinement.MemoryListIff` | services/agent_hub/npd_agent_hub/nba_review_repository.py:43-57 | the in-memory listing is that sequence of rows and no other |
| `ReviewRefinement.RedisListIff` | services/agent_hub/npd_agent_hub/nba_review_repository.py:115-129 | so is the Redis listing, where matching means sharing the subject's digest |
| `ReviewRefinement.PruneKeepsNewest` | services/agent_hub/npd_agent_hub/nba_review_repository.py:34-41 | pruning keeps the newest records of the dict, as many as the bound allows |
| `ReviewRefinement.RunKeepsNewest` | services/agent_hub/npd_agent_hub/nba_review_repository.py:29-41 | after any run without conflicting ids the repository holds exactly the newest `retention` of all records ever saved |
| `ReviewRefinement.NothingRefused` | services/agent_hub/npd_agent_hub/nba_review_repository.py:30-32 | in such a run no save is refused |
| `ReviewRefinement.LiveRecordIsImmutable` | services/agent_hub/npd_agent_hub/nba_review_repository.py:30-33 | no save changes a record that stays live |
| `ReviewRefinement.PrunedIdIsReusable` | services/agent_hub/npd_agent_hub/nba_review_repository.py:30-41 | supporting: immutability ends with retention: a pruned id is accepted with other content |
| `Telemetry.Summarize` | scripts/ops/ah_t01/telemetry_observation.py:170-241 | a window passes if and only if it is well-formed, in range and both counters are continuous in time order; which fault is raised; route, process and first-seen tables of a passing window |
| `Telemetry.Tally` | scripts/ops/ah_t01/telemetry_observation.py:192-232 | the event loop fails if and only if a route or process counter jumps, and otherwise returns first, last and number of each key's counts |
| `Telemetry.ChainRoutes` | scripts/ops/ah_t01/telemetry_observation.py:402-425 | chaining one day's route boundaries raises if and only if one is inconsistent (a first count below 1, a last below the first, or another number observed) and otherwise reports exactly the routes whose first count does not follow the last one seen |
| `Telemetry.ChainDeprecated` | scripts/ops/ah_t01/telemetry_observation.py:426-444 | the same for process counters, which may repeat or follow |
| `Telemetry.EvaluateCounters` | scripts/ops/ah_t01/telemetry_observation.py:395-444 | over all days: raises if and only if some boundary is inconsistent; the gaps are exactly the keys whose boundaries do not link up |
| `Telemetry.UnacceptedRestarts` | scripts/ops/ah_t01/telemetry_observation.py:481-501 | a process is reported if and only if no ledger entry accepts it and its first entry in the lists comes after the first entry of another process of its service, by time and then name |
| `Telemetry.CoverageIff` | scripts/ops/ah_t01/telemetry_observation.py:160-167 | the coverage label of every service and route, by the action the route stands for |
| `Telemetry.ValidIffAcceptable` | scripts/ops/ah_t01/telemetry_observation.py:106-149 | an event is valid if and only if service, route and action are a listed triple and its fields meet the checker's rules, one by one |
| `TelemetryWindows.ByTimeOfWindows` | scripts/ops/ah_t01/telemetry_observation.py:170-190 | sorting a whole log by time is sorting each of its consecutive windows and joining them |
| `TelemetryWindows.SplitMerge` | scripts/ops/ah_t01/telemetry_observation.py:190-236 | the route check of the whole log passes if and only if every window passes and the chained daily summaries show no route gap, for every cut and every line order |
| `TelemetryWindows.MergedBoundary` | scripts/ops/ah_t01/telemetry_observation.py:207-210 | a route's merged boundary is earliest first, latest last and the sum of the observed counts of its windows |
| `TelemetryWindows.MergedBoundaryIsComplete` | scripts/ops/ah_t01/telemetry_observation.py:410-425 | for a continuous route that sum is last - first + 1 |
| `TelemetryWindows.DeprecatedSplitMerge` | scripts/ops/ah_t01/telemetry_observation.py:212-221 | the process counter is continuous over the whole log if and only if it is in every window and across every window boundary; then chaining reports no gap |
| `ProcessLosses.ChainingSufficesIff` | scripts/ops/ah_t01/telemetry_observation.py:436-444 | when windows and chaining pass, the process counter of the whole log is continuous if and only if no later window of a process opens with a health probe one count up or with an attempt that repeats the count |
| `ProcessLosses.ProcessChecksIff` | scripts/ops/ah_t01/telemetry_observation.py:212-444 | for any log and any cuts, the process checks of windows and chaining pass if and only if every two neighbouring events of a process step exactly inside a window, and by zero or one across a cut |
| `ProcessLosses.AttemptLossIsMissedIff` | scripts/ops/ah_t01/telemetry_observation.py:212-444 | of a producer log with deletions, cut anywhere, the process checks pass if and only if between neighbouring survivors no attempt is missing, or just one, across a cut, with a health probe opening the later window |
| `ProcessLosses.LossIsUnseenIff` | scripts/ops/ah_t01/telemetry_observation.py:200-444 | all four checks together pass if and only if in addition no deleted event lies between two survivors of its route |
| `ProducerWindows.SummariesPassIff` | scripts/ops/ah_t01/telemetry_observation.py:170-236 | for any lines that the windows cover, every window is summarised if and only if none is empty, every line is valid and both counters are continuous in every window |
| `ProducerWindows.LossIsAcceptedIff` | scripts/ops/ah_t01/telemetry_observation.py:170-444 | of a producer log with deletions, every window is summarised and the chaining reports nothing if and only if no window is emptied, every survivor is a plain request of a salted recorder, and the losses are such as the counter checks cannot see |
| `ProducerWindows.AcceptedDaysAreConsistent` | scripts/ops/ah_t01/telemetry_observation.py:416-444 | and then the evaluation of those days does not raise |
| `ProcessLosses.MissedAttempt` | scripts/ops/ah_t01/telemetry_observation.py:200-444 | an attempt lost between survivors of its process and seen by no check is the only one between its neighbours, a cut and a health probe follow, and its own route survives on one side at most |
| `ProcessLosses.LossSlipsThrough` | scripts/ops/ah_t01/telemetry_observation.py:436-444 | such a log: two submissions and a probe, the second submission lost, a new day before the probe; everything passes, yet the surviving lines together fail the process check |
| `TelemetryWindows.PassedWindowRaisesIff` | scripts/ops/ah_t01/telemetry_observation.py:416-417 | a window that passed `summarize` makes `evaluate` raise if and only if some route counter in it is zero |
| `TelemetryWindows.ZeroCountStopsEvaluation` | scripts/ops/ah_t01/telemetry_observation.py:416-417 | one valid event with a zero route counter: its window passes and its day makes the evaluation raise |
| `LegacyTelemetryLog.LegacyTelemetry.Record` | apps/api/app/legacy_telemetry.py:89-132 | unknown routes change nothing; a known one advances its own and, unless a health probe, the deprecated counter, and the emitted event carries both new values |
| `LegacyTelemetryLog.LogReportsCalls` | apps/api/app/legacy_telemetry.py:89-132 | the log of any requests has one event for each recorded one, in order, with its label, verb in capitals, status, time, claimed caller and whether it was an attempt |
| `LegacyTelemetryLog.RecordedIff` | apps/api/app/legacy_telemetry.py:24-30 | supporting: recorded are exactly the requests of the five listed routes of the API |
| `LegacyTelemetryLog.SafeClaimedCaller` | apps/api/app/legacy_telemetry.py:34-38 | supporting: the recorded caller always satisfies the checker's caller rule and is absent exactly if none was claimed |
| `LegacyTelemetryLog.LogIsNumbered` | apps/api/app/legacy_telemetry.py:103-109 | every event of every run carries its own rank among the events of its route |
| `LegacyTelemetryLog.EventIsValidIff` | scripts/ops/ah_t01/telemetry_observation.py:100-149 | the checker accepts a produced event if and only if the recorder is salted, the verb has 3 to 10 letters and the status lies from 100 to 599 |
| `LegacyTelemetryLog.AttributedIff` | scripts/ops/ah_t01/telemetry_observation.py:152-157 | a produced event is attributed if and only if the claimed caller is an id of the prescribed form, other than the marker for malformed ones, with nothing but what Python counts as white space around it |
| `LegacyTelemetryLog.CoverageIsDeprecated` | scripts/ops/ah_t01/telemetry_observation.py:160-167 | supporting: a produced event can count towards path coverage if and only if it is written down as a deprecated attempt |
| `LegacyTelemetryLog.CompleteLogPasses` | apps/api/app/legacy_telemetry.py:89-132 | a complete log under a non-decreasing clock, cut anywhere, passes every counter check of every window and of the chaining |
| `LegacyTelemetryLog.SurvivorsContinuousIff` | scripts/ops/ah_t01/telemetry_observation.py:200-206 | what is left of a log after any deletions is continuous if and only if no deleted event lies between two survivors of its route |
| `LegacyTelemetryLog.LossIsDetectedIff` | scripts/ops/ah_t01/telemetry_observation.py:200-425 | however the survivors are cut into windows, the route checks report a fault if and only if some deleted event has an earlier and a later survivor of its route |
| `ProducerWindows.WindowPassesIff` | scripts/ops/ah_t01/telemetry_observation.py:170-241 | a window cut from a complete log under a non-decreasing clock is summarised if and only if it is not empty, its bounds hold its events, the recorder is salted and every request has a verb of 3 to 10 letters and an HTTP status |
| `ProducerClock.RoutesPassIff` | scripts/ops/ah_t01/telemetry_observation.py:188-206 | whatever the clock does: the route counters of a complete log pass if and only if the time stamps of each route never fall in counting order |
| `ProducerClock.AttemptsPassIff` | scripts/ops/ah_t01/telemetry_observation.py:188-221 | whatever the clock does: the process counter of a complete log passes if and only if wherever a later event is stamped earlier, only health probes lie from the one to the other |
| `ProducerClock.SteppedClockFails` | apps/api/app/legacy_telemetry.py:103-115 | a clock that steps back between two health probes fails the route check, and not the process check, although nothing was lost |
| `Maintenance.NormalizedItems` | services/agent_hub/npd_agent_hub/maintenance.py:236-322 | a document is accepted if and only if every listed rule holds, and the result is its items in key order |
| `Maintenance.RedisServer.Verify` | services/agent_hub/npd_agent_hub/maintenance.py:325-377 | for the namespace without its outer colons: verification succeeds if and only if document and namespace agree in keys, types, values and expiries within two seconds |
| `Maintenance.RedisServer.Restore` | services/agent_hub/npd_agent_hub/maintenance.py:380-424 | for the namespace without its outer colons: refused exactly for an empty namespace, an unacceptable document or a non-empty target without `replace`, and then the whole store is unchanged; otherwise the new store, and completion if and only if it verifies |
| `Maintenance.OwnNamespace` | services/agent_hub/npd_agent_hub/maintenance.py:33-37 | supporting: a text that neither begins nor ends with a colon is its own namespace, and no other |
| `BackupRoundTrip.RestoreFrame` | services/agent_hub/npd_agent_hub/maintenance.py:380-424 | keys outside the namespace, those that do not begin with it and a colon, keep value and expiry in every accepted restore |
| `BackupRoundTrip.RestoredLive` | services/agent_hub/npd_agent_hub/maintenance.py:400-418 | after a restore a namespace key is live exactly if an unexpired item with content carries it, with that item's type, value and expiry |
| `BackupRoundTrip.RestoreVerifiesIff` | services/agent_hub/npd_agent_hub/maintenance.py:325-424 | a restore verifies if and only if every active item is non-empty, has its sorted-set entries in Redis order and an expiry at most two seconds off; validation asks for less |
| `BackupRoundTrip.EmptyListNeverVerifies` | services/agent_hub/npd_agent_hub/maintenance.py:73-103 | a document with one empty list is accepted and written, and never verifies |
| `BackupRoundTrip.ZRangeOfScores` | services/agent_hub/npd_agent_hub/maintenance.py:73-103 | writing sorted-set entries and reading them back returns them if and only if they were in (score, member) order |
| `BackupRoundTrip.ExportIsAccepted` | services/agent_hub/npd_agent_hub/maintenance.py:210-233 | every exported document is accepted by validation, already normal and all of its items faithful |
| `BackupDocuments.ExportDocuments` | services/agent_hub/npd_agent_hub/maintenance.py:106-233 | an export has one item for each live key under `namespace:`, in key order, with its type, value, expiry and remaining life, and the number of items of each type |
| `BackupDocuments.AcceptedIff` | services/agent_hub/npd_agent_hub/maintenance.py:236-320 | a document of either version is accepted if and only if version, namespace, keys, values, counts, lives, checksums and proof meet their rules, each said of the items themselves |
| `BackupDocuments.ItemsArePinned` | services/agent_hub/npd_agent_hub/maintenance.py:149-171 | two accepted current documents that differ in their items only have the same keys, types, values and expiries |
| `BackupDocuments.SameChecksumIff` | services/agent_hub/npd_agent_hub/maintenance.py:162-171 | two exports, from any stores at any times, have the same content checksum if and only if the namespace held the same keys with the same data |
| `BackupDocuments.UsedItems` | services/agent_hub/npd_agent_hub/maintenance.py:236-320 | an accepted document is used item by item, each once, in key order, a legacy one without expiries |
| `BackupDocuments.ReportCounts` | services/agent_hub/npd_agent_hub/maintenance.py:325-378 | the report counts active, expired and expiring items, and its checksum covers exactly the active ones |
| `BackupRoundTrip.ExportProvesQuiescence` | services/agent_hub/npd_agent_hub/maintenance.py:181-208 | a successful export shows that keys, types and values did not change between its two readings |
| `BackupRoundTrip.RoundTrip` | services/agent_hub/npd_agent_hub/maintenance.py:106-146 | restoring an export into any target gives every namespace key its source data, its expiry moved only by the export's reading delay |
| `BackupRoundTrip.RoundTripIsExact` | services/agent_hub/npd_agent_hub/maintenance.py:210-424 | without that delay the restored namespace equals the source's at every later moment |
| `BackupRoundTrip.RoundTripVerifies` | services/agent_hub/npd_agent_hub/maintenance.py:325-424 | a restored export always verifies |
| `BackupRoundTrip.ReExport` | services/agent_hub/npd_agent_hub/maintenance.py:162-233 | re-exporting a restored namespace before anything expires gives the same content digest and type counts |
| `Attribution.AttributionService.RegisterIdentityMapping` | services/agent_hub/npd_agent_hub/attribution.py:98-138 | unknown Campaign, known identity, clash or registered, and the registry that results, decided by the first listed mapping that overlaps for another Campaign or has the same identity |
| `Attribution.AttributionService.IngestSourceTouchpoints` | services/agent_hub/npd_agent_hub/attribution.py:318-472 | the stored state and the counters after a batch, equal to folding single events although the loop keeps its own `seen` payloads; the call fails, after storing, for a batch whose resolved events mix zoned and unzoned times |
| `Attribution.AttributionService.IngestEvent` | services/agent_hub/npd_agent_hub/attribution.py:326-415 | one round: the verdict and the new ledger and issue queue, whatever payloads were seen before in the batch |
| `AttributionIntake.NamesIff` | services/agent_hub/npd_agent_hub/attribution.py:79-96 | evidence resolves to exactly the Campaigns named by stored id, by tracking key whatever its case, or by a fitting mapping |
| `AttributionIntake.VerdictIff` | services/agent_hub/npd_agent_hub/attribution.py:326-415 | unknown if and only if no Campaign is named, inserted if and only if one is and the id is new, duplicate if and only if the row under the id records this very event, Campaign and evidence |
| `AttributionIntake.RecordsIff` | services/agent_hub/npd_agent_hub/attribution.py:201-233 | one touchpoint records an event: its id, Campaign, time, opportunity, lead and all else but account and canonical id, with the kinds of evidence and the mappings |
| `AttributionIntake.BatchLedger` | services/agent_hub/npd_agent_hub/attribution.py:318-415 | after every batch each new id of an event that names one Campaign has the row of the first such event, with its own time, lead and opportunity, that Campaign and the time of ingest; every earlier row is as it was |
| `AttributionIntake.IssuesAfterEvent` | services/agent_hub/npd_agent_hub/attribution.py:235-316 | a doubtful event leaves its issue open with every Campaign named and one occurrence more, a clear one settles it, and no other issue changes |
| `Attribution.AttributionService.ReplayIntakeIssue` | services/agent_hub/npd_agent_hub/attribution.py:548-572 | a replay runs if and only if the issue exists and its preview is ready or duplicate; otherwise nothing changes |
| `Attribution.AttributionService.CheckBackfill` | services/agent_hub/npd_agent_hub/attribution.py:606-630 | the validation loop accepts if and only if ids are distinct, Campaigns exist and rows already stored are identical, and splits the batch into new rows and duplicates |
| `Attribution.AttributionService.Backfill` | services/agent_hub/npd_agent_hub/attribution.py:598-642 | all or nothing: an unacceptable batch changes nothing, an acceptable one appends exactly its new rows |
| `AttributionLedger.BatchAccounting` | services/agent_hub/npd_agent_hub/attribution.py:318-446 | for every batch received = inserted + duplicates + unknown + conflicts, the ledger grows by exactly the inserted rows and no earlier row changes |
| `AttributionLedger.BatchesCompose` | services/agent_hub/npd_agent_hub/attribution.py:326-415 | ingesting a + b gives the ledger, queue and summed counters of ingesting a and then b |
| `AttributionLedger.MixedTimesIff` | services/agent_hub/npd_agent_hub/attribution.py:418 | a batch has no latest time if and only if of its events that name one Campaign each, some have zoned and some unzoned times |
| `AttributionLedger.ReingestIsIdempotent` | services/agent_hub/npd_agent_hub/attribution.py:194-233 | in every later state with the same registry and Campaigns, ingesting a batch again leaves the ledger unchanged and turns every insertion into a duplicate, all else equal |
| `AttributionLedger.RedeliveryIsDuplicateIff` | services/agent_hub/npd_agent_hub/attribution.py:195-199 | when the registry has only grown, the redelivery of an inserted event is a duplicate if the same mappings match it as then, and a conflict otherwise, whatever Campaign the others name |
| `AttributionLedger.DuplicateIff` | services/agent_hub/npd_agent_hub/attribution.py:195-233 | whatever changed since: a later event with the id of an inserted one is a duplicate if and only if all the touchpoint keeps is as it was and the evidence resolves as it did then |
| `AttributionLedger.DuplicateIffResolvedAlike` | services/agent_hub/npd_agent_hub/attribution.py:195-199 | supporting: whatever changed since: the redelivery is a duplicate if and only if the evidence resolves as it did then |
| `AttributionLedger.ChangeIsNoticedIff` | services/agent_hub/npd_agent_hub/attribution.py:202-233 | when the registry has only grown, a changed event under a known id is unknown or in conflict unless it repeats what the touchpoint keeps, matches the same mappings and names the same known Campaign |
| `AttributionLedger.UnnoticedChange` | services/agent_hub/npd_agent_hub/attribution.py:209-233 | another account that no mapping reads and an unknown canonical id pass for the event itself |
| `AttributionRuns.ChangePassesForDuplicate` | services/agent_hub/npd_agent_hub/attribution.py:318-415 | a run in which such a changed event counts as a duplicate |
| `AttributionLedger.OneMoreMapping` | services/agent_hub/npd_agent_hub/attribution.py:195-233 | after one more matching mapping was registered, even for the same Campaign, the redelivery is a conflict |
| `AttributionLedger.RegisterUnambiguousIff` | services/agent_hub/npd_agent_hub/attribution.py:111-126 | a mapping that was registered leaves the registry unambiguous if and only if every mapping beyond the listing cap that overlaps it names its Campaign |
| `AttributionLedger.UnambiguousIff` | services/agent_hub/npd_agent_hub/attribution.py:66-96 | no two overlapping mappings disagree if and only if, whatever event comes, all mappings matching it name one Campaign |
| `AttributionLedger.RegisterIsIdempotent` | services/agent_hub/npd_agent_hub/attribution.py:111-120 | supporting: registering a known identity for its Campaign finds it and stores nothing |
| `AttributionLedger.CapLosesUnambiguity` | services/agent_hub/npd_agent_hub/attribution.py:111 | for every cap: from an unambiguous registry, an overlapping mapping of another Campaign beyond the cap lets a registration pass that a full listing refuses, and the registry becomes ambiguous |
| `AttributionLedger.RegistryNamesOneCampaign` | services/agent_hub/npd_agent_hub/attribution.py:171-178 | in an unambiguous registry all mappings matching an event name one Campaign |
| `AttributionLedger.PreviewIsVerdict` | services/agent_hub/npd_agent_hub/attribution.py:492-546 | a preview announces exactly what ingesting the issue's event would find |
| `AttributionIntake.PreviewIff` | services/agent_hub/npd_agent_hub/attribution.py:492-546 | the Campaigns and the state a preview shows, in terms of the event and the ledger |
| `AttributionLedger.PreviewPredictsReplay` | services/agent_hub/npd_agent_hub/attribution.py:492-572 | an allowed replay inserts one row exactly if announced, leaves the previewed id with the previewed Campaign, resolves the issue, and the next preview says duplicate |
| `AttributionRuns.ReplayInEveryRun` | services/agent_hub/npd_agent_hub/attribution.py:548-572 | in every reachable state a replay keeps that promise where the preview allows it and changes nothing where it does not |
| `AttributionRuns.OccurrencesCountDoubts` | services/agent_hub/npd_agent_hub/attribution.py:235-272 | in every reachable state an issue's count is the number of unknown or conflict verdicts ever given for its event, and no other event has an issue |
| `AttributionRuns.LedgerIsAppendOnly` | services/agent_hub/npd_agent_hub/attribution.py:318-642 | over every run of all operations no ledger row is ever changed or lost |
| `AttributionTouches.RunTouchesIff` | services/agent_hub/npd_agent_hub/attribution.py:318-685 | in every reachable state the touches of a deal are exactly the ids under which an event or a backfilled row was handed in with its opportunity or, if none ever was, with its lead |
| `AttributionRuns.RegistryAgreesIff` | services/agent_hub/npd_agent_hub/attribution.py:98-178 | in every reachable state all mappings matching any event agree on its Campaign if and only if every registration of the run agreed with the overlapping mappings beyond its cap |
| `AttributionRuns.RegistryAgreesInEveryRun` | services/agent_hub/npd_agent_hub/attribution.py:98-178 | supporting: so they always agree while each registration listed the whole registry |
| `AttributionRuns.CapRunIsAmbiguous` | services/agent_hub/npd_agent_hub/attribution.py:111 | for every cap a run from the empty store after which they do not agree |
| `AttributionReport.Reconcile` | services/agent_hub/npd_agent_hub/attribution.py:666-737 | refused exactly for a repeated opportunity; otherwise one match per observation from the ledger, with hints and issues as the code assigns them |
| `AttributionTouches.MatchMeaning` | services/agent_hub/npd_agent_hub/attribution.py:676-724 | the match of a deal, from the ledger: its touches in order of time and id, their Campaigns once each, how it was matched and which issues it has |
| `AttributionReport.MakeReport` | services/agent_hub/npd_agent_hub/attribution.py:821-896 | hidden exactly until accepted; otherwise one row per credited Campaign in id order, each the rounded sum of what it earns over all observations, and rounded totals |
| `AttributionReport.AllRows` | services/agent_hub/npd_agent_hub/attribution.py:845-866 | the accumulation loop gives each Campaign exactly what it earns, and rows exactly to credited Campaigns |
| `AttributionCredit.RowsAreShown` | services/agent_hub/npd_agent_hub/attribution.py:868-890 | every row, and the total, shows its exact amounts to four and two decimals, half to even |
| `AttributionCredit.EligibleIff` | services/agent_hub/npd_agent_hub/attribution.py:740-777 | the quality gate opens if and only if every opportunity has good evidence in the ledger, one is won, and every won one has a positive amount and a closing date |
| `AttributionCredit.DecisionRule` | services/agent_hub/npd_agent_hub/attribution.py:785-805 | supporting: the owner can refuse every reconciliation, accept exactly the eligible ones, and changes nothing else |
| `AttributionCredit.AcceptedIsEligible` | services/agent_hub/npd_agent_hub/attribution.py:785-805 | whatever series of owner decisions, an accepted reconciliation is eligible, unchanged otherwise and without unmatched opportunities |
| `AttributionCredit.SharesSumToOne` | services/agent_hub/npd_agent_hub/attribution.py:850-858 | under each model the shares of a matched opportunity sum to exactly one |
| `AttributionCredit.CreditIsConserved` | services/agent_hub/npd_agent_hub/attribution.py:845-866 | under each model the unrounded rows sum to the number of matched opportunities, their open and won amounts and their won amounts |
| `AttributionCredit.ReportedTotals` | services/agent_hub/npd_agent_hub/attribution.py:868-890 | the reported money totals are the exact sums of the rows shown, within 0.005 a row of what was booked |
| `AttributionCredit.VisibleReportAccountsForAll` | services/agent_hub/npd_agent_hub/attribution.py:666-896 | every visible report of a reconciliation accounts for all of its opportunities, pipeline and revenue up to that rounding |
| `AttributionCredit.RowsAreOrdered` | services/agent_hub/npd_agent_hub/attribution.py:860-876 | every row shows at least as much pipeline as revenue, and no negative amount, rounding included |
| `AttributionTouches.FirstTouchIsEarliest` | services/agent_hub/npd_agent_hub/attribution.py:684-852 | from the ledger: first touch credits, alone, the Campaign of the deal's touch with the least (time, id) |
| `AttributionTouches.LastTouchIsLatestIff` | services/agent_hub/npd_agent_hub/attribution.py:684-854 | from the ledger: last touch credits the Campaign of the touch with the greatest (time, id), as documented, if and only if no Campaign first touched the deal after that Campaign first did |
| `AttributionTouches.LinearCreditsAll` | services/agent_hub/npd_agent_hub/attribution.py:855-858 | linear credit goes to exactly the Campaigns that touched the deal, once each |
| `AttributionTouches.HintIsCredited` | services/agent_hub/npd_agent_hub/attribution.py:686-692 | a deal without touches credits the stored Campaign of its hint under every model, or nobody |
| `AttributionTouches.ReturningCampaignIsNotCredited` | services/agent_hub/npd_agent_hub/attribution.py:685 | touched by A, B and A again, last touch credits B |
| `JobStore.RedisJobStore.MutateJob` | apps/api/app/state.py:65-83 | the retry loop under any schedule of rivals: the write is the mutation of the record just before it, a refusal is the one that record gives, and there are at most as many retries as rival writes |
| `JobStoreRuns.RunsAreSerial` | apps/api/app/state.py:65-111 | in every interleaving of any number of clients each committed record is its mutation applied to the immediately preceding one |
| `JobStoreRuns.WriteFollows` | apps/api/app/state.py:85-111 | every write but the first is its update, artifact or failure of the record before it, field by field |
| `JobStoreRuns.FirstWrite` | apps/api/app/state.py:33-52 | the first write of every run is the queued job of the first request to create one |
| `JobStoreRuns.RetriesAreBounded` | apps/api/app/state.py:65-83 | in every interleaving a call has lost at most as many attempts as others wrote since it began |
| `JobStoreRuns.UndisturbedCall` | apps/api/app/state.py:65-83 | supporting: a call nobody disturbs is its whole read, mutation and write at once |
| `JobStoreRuns.HistoryAdvances` | apps/api/app/state.py:14-18 | from any committed record to any later one the progress never falls and the stage never goes back in the listed order of stages |
| `JobStoreRuns.FailedStageIsFinal` | apps/api/app/state.py:14-18 | stage FAILED is never left |
| `JobStoreRuns.FailedStatusIsLeftIff` | apps/api/app/state.py:85-94 | status FAILED of a failed job is left if and only if a write updates it to stage FAILED with another status |
| `JobStoreRuns.FailedStatusCanBeLeft` | apps/api/app/state.py:14-18 | supporting: any idle client can make that write |
| `JobStoreRuns.RunLeavesFailedStatus` | apps/api/app/state.py:60-111 | a run that does it: created, failed, and updated to status RUNNING with its stage and error standing |
| `JobStoreRuns.UnreadableIff` | apps/api/app/state.py:76-79 | the stored job cannot be read back if and only if the last write raised its progress above 100 |
| `JobStoreRuns.RunBecomesUnreadable` | apps/api/app/state.py:60-94 | a run that gets there: a new job and one update to a progress of 101 |
| `JobStoreRuns.UnreadableIsFinal` | apps/api/app/state.py:65-83 | such a job never changes again, whatever the clients do |
| `JobStoreRuns.ArtifactsInEveryRun` | apps/api/app/state.py:96-101 | in every interleaving artifact names are unique, no committed name is lost, and the artifacts are exactly the latest commits of their names |
| `Journey.Project` | services/agent_hub/npd_agent_hub/journeys.py:242-337 | the loop gives the replay, the suppressed and untrusted counts and the missing signals of the sorted events; nothing for a subject without events |
| `JourneyRules.EventRule` | services/agent_hub/npd_agent_hub/journeys.py:127-285 | what one more event does in every reachable state: where it leads, whether the journey may go there, the transition with the states it jumps over, and when it counts as suppressed, from the funnel and the trusted declarations alone |
| `JourneyRules.OneTarget` | services/agent_hub/npd_agent_hub/journeys.py:165-195 | supporting: no event leads to two states |
| `JourneyRules.ProjectionTakesInOrder` | services/agent_hub/npd_agent_hub/journeys.py:111-301 | the projection is that of the stored events in order of time and id, each once, from ANONYMOUS |
| `JourneyProjection.TransitionsObeyPolicy` | services/agent_hub/npd_agent_hub/journeys.py:127-227 | no transition leaves REENGAGEMENT, LOST leads only to REENGAGEMENT, and sales states are entered only on an accepted declaration from an authoritative source |
| `JourneyProjection.AtMostTenTransitions` | services/agent_hub/npd_agent_hub/journeys.py:208-227 | no ledger, however long, gives more than ten transitions |
| `JourneyProjection.ObservedAndMissingPartition` | services/agent_hub/npd_agent_hub/journeys.py:287-301 | missing signals are exactly the skipped states in rank order, none of them observed, and with the observed ones they are exactly the linear states from LEAD to the reach of the run |
| `JourneyProjection.ReachIsHighest` | services/agent_hub/npd_agent_hub/journeys.py:229-240 | that reach is the highest rank observed, or NEGOTIATION's once the journey was lost |
| `JourneyProjection.UncitedEventsDoNotMatter` | services/agent_hub/npd_agent_hub/journeys.py:255-285 | removing any events that no transition cites leaves transitions and final state as they are |
| `JourneyProjection.UntrustedEvidenceIsInert` | services/agent_hub/npd_agent_hub/journeys.py:165-176 | removing all untrusted evidence leaves transitions and final state as they are |
| `JourneyProjection.CitedEvidenceSuffices` | services/agent_hub/npd_agent_hub/journeys.py:270-285 | the cited events alone give the same transitions and final state |
| `JourneyProjection.OrderDoesNotMatter` | services/agent_hub/npd_agent_hub/journeys.py:111-119 | the projection depends on which events are stored and not on their listed order |
| `JourneyProjection.LaterEventsExtend` | services/agent_hub/npd_agent_hub/journeys.py:111-285 | events later than all others only extend the list of transitions |
| `Delivery.DeliveryService.Ingest` | services/agent_hub/npd_agent_hub/delivery_observability.py:316-375 | reply and new state of a delivery: refusals, the known receipt, the conflict, or ingest, receipt and audit |
| `Delivery.DeliveryService.RecordFailure` | services/agent_hub/npd_agent_hub/delivery_observability.py:377-451 | reply and new state of a failure report: retry receipt, or dead-lettered receipt with its dead letter |
| `Delivery.DeliveryService.ExistingOrConflict` | services/agent_hub/npd_agent_hub/delivery_observability.py:265-303 | an identical payload returns the stored receipt and changes nothing; another one adds at most a dead letter, and an audit entry |
| `DeliveryRules.ReplyIff` | services/agent_hub/npd_agent_hub/delivery_observability.py:133-451 | which of six reasons refuses a call, or that it is answered, from configuration, payload and stored state |
| `DeliveryRules.AnswerSays` | services/agent_hub/npd_agent_hub/delivery_observability.py:316-451 | what the receipt of a first submission says, and all that its answer leaves in the store |
| `DeliveryRules.KeyringIff` | services/agent_hub/npd_agent_hub/delivery_observability.py:100-111 | the verification keys under every id, and when there are none |
| `DeliveryRuns.ReceiptsAreImmutable` | services/agent_hub/npd_agent_hub/delivery_observability.py:265-303 | a receipt is what every later state holds for its attempt |
| `DeliveryRuns.AtMostOnce` | services/agent_hub/npd_agent_hub/delivery_observability.py:316-451 | after any calls, repeating an answered submission returns its receipt and changes nothing; any other payload for the attempt is refused and touches neither receipts nor ledger |
| `DeliveryRuns.LedgerGrowthIsReceipted` | services/agent_hub/npd_agent_hub/delivery_observability.py:332-362 | over every sequence of calls, whatever the configuration, the ledger grows by what the receipts say was inserted plus the rows of envelopes whose receipt could not be built |
| `DeliveryRuns.RunIsReceiptedIff` | services/agent_hub/npd_agent_hub/delivery_observability.py:332-362 | the receipts account for the whole growth if and only if no call of the run inserted rows for such an envelope |
| `DeliveryRuns.GrowthIsAccountedIff` | services/agent_hub/npd_agent_hub/delivery_observability.py:133-141 | a new attempt is accounted for if and only if it is a failure report, or nothing was inserted, or the key id has 3 to 80 characters and the batch does not mix zoned and unzoned times |
| `DeliveryRuns.ShortKeyIdLosesReceipt` | services/agent_hub/npd_agent_hub/delivery_observability.py:183-192 | a key id of two characters: one row, no receipt |
| `DeliveryRuns.MixedTimesLoseReceipt` | services/agent_hub/npd_agent_hub/attribution.py:418 | one zoned and one unzoned event: two rows, no receipt, whatever the configuration |
| `DeliveryRuns.RedeliveredEventsInsertNothing` | services/agent_hub/npd_agent_hub/delivery_observability.py:316-362 | events of an answered delivery, sent again in a later attempt, whatever deliveries came between, are answered, insert nothing and count as duplicates |
| `DeliveryRuns.RunsAreSound` | services/agent_hub/npd_agent_hub/delivery_observability.py:316-451 | in every run each attempt has one signed receipt whose counts add up; a dead-lettered one has its dead letter with the same payload, any other failure its prescribed retry time; no attempt exceeds the configured budget |
| `DeliveryRuns.DelaysDouble` | services/agent_hub/npd_agent_hub/delivery_observability.py:399-400 | retry delays double from 30 seconds up to the fifth attempt and are 900 seconds from the sixth on |
| `DeliveryRuns.ReceiptsVerify` | services/agent_hub/npd_agent_hub/delivery_observability.py:100-111 | across any number of key rotations every receipt ever issued verifies with the keyring the service builds, as long as retired keys are kept under their ids |
| `DeliveryRuns.VerifiedIffIssued` | services/agent_hub/npd_agent_hub/delivery_observability.py:537-556 | across rotations: of all receipts with any body and a signature that is text, of a foreign key, or copied from an issued receipt, exactly those the service holds verify |
| `Heartbeats.HeartbeatService.IngestHeartbeat` | services/agent_hub/npd_agent_hub/delivery_observability.py:467-521 | reply and receipts: time window, known id, sequence guard |
| `Heartbeats.HeartbeatRule` | services/agent_hub/npd_agent_hub/delivery_observability.py:467-521 | the reply to every heartbeat and what it adds, from the receipts: five minutes ahead, a day behind, the known id, the latest receipt of its producer |
| `Heartbeats.GuardKeepsIncreasingIff` | services/agent_hub/npd_agent_hub/delivery_observability.py:496-500 | the guard keeps a producer's sequence numbers increasing if and only if its last two receipts did not arrive at the same instant |
| `Heartbeats.TiesRepeatSequence` | services/agent_hub/npd_agent_hub/delivery_observability.py:495-499 | three heartbeats at one instant: the third repeats a sequence number and is accepted |
| `Heartbeats.RunIsGuardedIff` | services/agent_hub/npd_agent_hub/delivery_observability.py:467-521 | over every run under a clock that never falls, for each producer on its own: whatever it might have sent next was always refused, known, or numbered above all before, if and only if no two of its receipts share an instant; and then its numbers strictly increase |
| `Heartbeats.SequencesIncrease` | services/agent_hub/npd_agent_hub/delivery_observability.py:467-521 | so they do for every producer that never sends twice at one instant, whatever the others send |
| `ProviderHealth.ConditionAlerts` | services/agent_hub/npd_agent_hub/provider_health.py:246-294 | the conditions under every key, texts included: of the last observation raising it, or of the delivery status |
| `ProviderHealthRuns.ConditionIff` | services/agent_hub/npd_agent_hub/provider_health.py:246-294 | a condition with a text holds if and only if the last observation that raises it says so, or the state of the deliveries does |
| `ProviderHealth.UnresolvedRetryCount` | services/agent_hub/npd_agent_hub/provider_health.py:233-243 | the count is the number of deliveries whose highest attempt awaits a retry |
| `ProviderHealth.ProviderHealthService.SyncAlerts` | services/agent_hub/npd_agent_hub/provider_health.py:296-372 | the new alerts under every key, and exactly which opened, reopened and resolved |
| `ProviderHealth.ProviderHealthService.Acknowledge` | services/agent_hub/npd_agent_hub/provider_health.py:424-447 | only an open alert changes; unknown and resolved ones are refused |
| `ProviderHealthRuns.SyncIsExact` | services/agent_hub/npd_agent_hub/provider_health.py:296-372 | supporting: after a sync the alerts not resolved are exactly those whose condition holds, showing it as it is now |
| `ProviderHealthRuns.SecondSyncChangesNothing` | services/agent_hub/npd_agent_hub/provider_health.py:296-372 | supporting: a second sync with the same conditions opens, reopens and resolves nothing |
| `ProviderHealthRuns.RunExplainsAlerts` | services/agent_hub/npd_agent_hub/provider_health.py:296-447 | over every run: occurrence_count is the number of maximal stretches the condition held; status, times, text and acknowledgement are those of the latest stretch |
| `ProviderHealthRuns.AcknowledgementSurvives` | services/agent_hub/npd_agent_hub/provider_health.py:326-350 | an acknowledgement survives any number of syncs while the condition persists |
| `Orchestrator.AgentHub.DecideAction` | services/agent_hub/npd_agent_hub/orchestrator.py:178-218 | outcome and new state of a decision |
| `Orchestrator.AgentHub.ExecuteAction` | services/agent_hub/npd_agent_hub/orchestrator.py:220-282 | outcome and new state of an execution with the executor's answer |
| `Orchestrator.AgentHub.AnalyzeTask` | services/agent_hub/npd_agent_hub/orchestrator.py:284-356 | new state and audit of an analysis: its loop of reads, or the local-evidence mode |
| `OrchestratorRules.PlanRule` | services/agent_hub/npd_agent_hub/orchestrator.py:102-148 | a new report lists its guarded actions for approval, each as often as planned, in order |
| `OrchestratorRules.DecideRule` | services/agent_hub/npd_agent_hub/orchestrator.py:178-218 | who may be decided on, the reply to every other call, and all that a decision changes |
| `OrchestratorRules.ExecuteRule` | services/agent_hub/npd_agent_hub/orchestrator.py:220-282 | what may be dispatched, the reply to every other call, and all that a dispatch changes |
| `OrchestratorRules.AnalyzeRule` | services/agent_hub/npd_agent_hub/orchestrator.py:284-356 | an analysis dispatches each allowed read once, in order, and changes nothing else |
| `ApprovalRuns.ApprovalBudget` | services/agent_hub/npd_agent_hub/orchestrator.py:102-282 | for ever: once a guarded action was planned, in every later state it was dispatched at most as often as approved and succeeded at most once, even if its task was planned anew |
| `ApprovalRuns.ApprovalListIsExact` | services/agent_hub/npd_agent_hub/orchestrator.py:102-282 | in every reachable state the approval list of a task holds exactly its guarded actions that are proposed or failed |
| `OrchestratorRuns.AnalyzeLeavesGuarded` | services/agent_hub/npd_agent_hub/orchestrator.py:284-331 | an analysis never dispatches a guarded action nor changes its status or the approval list |
| `ApprovalRuns.RejectedAndExecutedAreFinal` | services/agent_hub/npd_agent_hub/orchestrator.py:178-240 | REJECTED and EXECUTED are final for a guarded action: never approved or dispatched again, replanning included, and never another status while it is listed |
| `Experiments.GuardrailBreaches` | services/agent_hub/npd_agent_hub/experiments.py:681-701 | the breaches found are exactly the pairs of a guardrail and a variant that violates it |
| `ExperimentRules.BreachIff` | services/agent_hub/npd_agent_hub/experiments.py:681-701 | each of them is a measured value on the wrong side of its guardrail, and every such value is found |
| `Experiments.ExperimentService.AttachObservation` | services/agent_hub/npd_agent_hub/experiments.py:290-333 | refused for unplanned variants, or missing ones of a verified source; otherwise appended, cut at 100, evaluation dropped |
| `Experiments.ExperimentService.DecideObservationQuality` | services/agent_hub/npd_agent_hub/experiments.py:342-397 | every listed observation of the id gets the decision and the evaluation is dropped; unknown ids are refused |
| `Experiments.ExperimentService.EvaluateExperiment` | services/agent_hub/npd_agent_hub/experiments.py:703-859 | evaluates the newest requested observation, only if accepted, and stores the result |
| `ExperimentRules.EvaluationRule` | services/agent_hub/npd_agent_hub/experiments.py:650-859 | what every observation under every plan gives: the recommendation in each case and the best challenger, its lift and winner, from the measured values alone |
| `ExperimentRules.AdviceIsUnique` | services/agent_hub/npd_agent_hub/experiments.py:757-859 | that rule determines the evaluation |
| `ExperimentRules.EvaluateRule` | services/agent_hub/npd_agent_hub/experiments.py:703-756 | which observation is evaluated, and that nothing but the evaluation changes |
| `ExperimentRules.ObservationRule` | services/agent_hub/npd_agent_hub/experiments.py:290-333 | which observations are attached, and the list that results |
| `ExperimentRules.PreviewRule` | services/agent_hub/npd_agent_hub/experiments.py:175-215 | when a preview is shown, and the target it shows to four decimals |
| `ExperimentRules.UpdateRule` | services/agent_hub/npd_agent_hub/experiments.py:148-173 | when a draft is updated, and every field of it |
| `ExperimentRules.TrackingRule` | services/agent_hub/npd_agent_hub/experiments.py:474-560 | when advertisements are mapped, and what that changes |
| `ExperimentRules.ApprovalRule` | services/agent_hub/npd_agent_hub/experiments.py:217-274 | when approval is requested and decided |
| `ExperimentRuns.EvidenceIsCurrent` | services/agent_hub/npd_agent_hub/experiments.py:148-859 | in every reachable state a preview is the preview of the current plan, and an evaluation names a listed accepted observation |
| `ExperimentRuns.EvaluationIsOfItsPlan` | services/agent_hub/npd_agent_hub/experiments.py:703-859 | in every reachable state an evaluation is what a listed accepted observation gives under the plan at the latest evaluation |
| `ExperimentEdits.EvaluationIsCurrentIff` | services/agent_hub/npd_agent_hub/experiments.py:148-167 | in every reachable state with an evaluation on record: it is of the plan on record if and only if every field given by the draft updates accepted since was last given its evaluated value |
| `ExperimentEdits.EvaluationStillHolds` | services/agent_hub/npd_agent_hub/experiments.py:757-810 | it remains what its evidence gives under the plan on record as long as direction, target, guardrails and variant ids are the evaluated ones |
| `ExperimentEdits.RecordedWinnerCanBeOutdated` | services/agent_hub/npd_agent_hub/experiments.py:155-166 | a run from a new experiment: a winner is found, the target is raised, the evaluation on record still names the winner and the same evidence under the plan on record only says continue |
| `ExperimentRuns.WinnerIff` | services/agent_hub/npd_agent_hub/experiments.py:757-810 | a winner is named if and only if the evidence is complete, fresh, verified, sufficient and without breaches, and the first of the best challengers in plan order meets target and significance; it is that challenger |
| `ExperimentEdits.StaysApprovedIff` | services/agent_hub/npd_agent_hub/experiments.py:175-274 | once approved, an experiment stays approved throughout if and only if no preview is shown |
| `ExperimentEdits.ApprovedPlanStaysIff` | services/agent_hub/npd_agent_hub/experiments.py:148-274 | from an approval on the plan stays as approved if and only if every edit accepted since repeats it, and each such edit follows a preview shown since |
| `ExperimentEdits.ApprovedPlanCanChange` | services/agent_hub/npd_agent_hub/experiments.py:148-205 | in every reachable approved state a preview and then any valid draft update are accepted, without new approval, and keep the plan if and only if the update repeats it |
| `ExperimentRuns.ListIsLastAdded` | services/agent_hub/npd_agent_hub/experiments.py:308-312 | the observation list is the last 100 added, in order, up to quality decisions |
| `ExperimentRuns.QualityIsLatestDecision` | services/agent_hub/npd_agent_hub/experiments.py:342-397 | each listed observation has the quality the owner last decided for it |

## Left out

- HTTP routing, dashboards, login, external clients, rendering, logging and the text of messages, alert details apart.
- JSON text, regular expressions, personal-data scanning, UUIDs and Unicode case rules; the parts of validation that need them.
- Read caps of the stores (5000 rows, 1000 per subject, 500 observations a request), apart from the registry cap and the retention bounds, which are parameters.
- Retention of heartbeat receipts, and the order in which Redis lists equal arrival times.
- Freshness evaluation, delivery status, provider snapshots, lease timing and routing previews.
- The caller, path and aggregate parts of `evaluate`, the window boundaries of days, and fingerprints.
- Times and actors on issues, snapshots and audit entries, the id of a replay's snapshot, and match, conflict and coverage rates.
- `AttributionReport.MakeReport`: one currency, the only one the observation model admits, so the check for several is not modelled.
- `JobStore.RedisJobStore.Create`: the idempotency key, whose get and set do not serialize.
- `JobStoreRuns.RetriesAreBounded`: bounds the retries by the writes of others; it does not say that others stop writing.
- `Journey.Project`: evidence rows, reasons, confidences, Campaign and source lists of the projection.
- `Orchestrator.AgentHub.AnalyzeTask`: plans, answers and the local review's findings are inputs or absent; overlapping executions of one action are excluded, and the approval list holds ids, so the sharing of action objects between a report and its list is not captured.
- `ExperimentRuns.WinnerIff`: the two-proportion significance test is an uninterpreted function of the two measurements.
- `DeliveryRuns.AtMostOnce`: a dead letter of the same attempt and reason is kept, so a second changed payload, or one after a failure reported as an integrity conflict, adds no further letter.
- Campaign changes made by tracking mapping, experiment ids, and variants that a draft update leaves as plain dictionaries in the memory store.
