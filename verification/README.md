# Signage server: verified model

The repository is the server of a campus signage service. Phones and an admin web application send
submissions, reviewers approve them, TVs show what is approved, and background jobs on several pods
keep statuses, play counts, videos and Slack alerts up to date. This project models the parts where
state, concurrency and time meet, and proves what holds of them in every run.

A component is written in three layers. Functions over values say what one transaction or one
conditional update does. A class holds the tables and its methods do the same step by step, with the
loops and early returns of the source; each method is proved equal to its function. Where requests,
pods or jobs overlap, a state machine takes these functions as its steps, a run is any sequence of
enabled steps, and an invariant kept by every step gives the theorems over all runs.

| module | models |
|---|---|
| `SeoulTime` | Seoul calendar arithmetic after section 21.4.1 of ECMA-262, and the period rules of posters and event banners |
| `QuietHours`, `DeviceAlerts` | quiet hours and the per-device outage automaton |
| `Outbox`, `OutboxRules`, `OutboxSafety`, `OutboxTheorems` | the Slack outbox: claims, the delivery lease, relevance, retries, the detection job, crashes and late workers |
| `Submissions`, `SubmissionRules`, `SubmissionSafety`, `StatusJob` | the submission lifecycle, overlapping requests and reviews, the status job |
| `Aggregation`, `AggregationRuns` | the daily totals of play events |
| `VideoQueue`, `VideoRuns` | the video queue with its fencing token |
| `Idempotency` | requests with an Idempotency-Key |
| `Relay`, `RelayRuns`, `RateLimit` | the game relay and its message limit |
| `ProgramRefs`, `ProgramLocks` | references to programs against program removal |
| `ResolveLive`, `Pagination` | live content resolution and keyset pagination |
| `Wrappers` | shared constructors |

Beside the runs stand lemmas whose names end in `Exactly`. They say, in terms of the input and the stored
rows alone, when an operation takes effect, what it then stores, and which refusal it gives otherwise.

Assumptions about the surroundings appear in the theorems as guards of steps or as preconditions: a
transaction, a conditional update and a unique index act atomically, random ids are new, and where a
clock may not go back or a delay is bounded the statement says so.

Where the code does less than one might expect, the exact condition is a theorem:

- `addMonthsInSeoul` moves years 0 to 99 into the 1900s, because `Date.UTC` does
  (`SeoulTime.AddMonthsExact`). The three-month limit of posters then lies in the 1900s, and a period of
  more than 92 days would be accepted, exactly while the clock stands before that limit
  (`SeoulTime.PosterPeriodIsBounded`). No clock of a running server does.
- `addMonthsInSeoul` is not monotone on instants. It reverses two instants exactly when they lie on
  different dates of one month, the target month ends no later than the earlier date, and the later
  instant has the earlier time of day (`SeoulTime.AddMonthsMonotoneExactly`).
- `markRejected` is not fenced. A rejection takes effect exactly when its asset is being processed,
  whoever holds it (`VideoRuns.RejectTakesEffectExactly`); a worker that was overtaken reaches this
  (`VideoRuns.OvertakenRejectIsReached`).
- `complete` and `release` of the idempotency store have no owner check. A running handler is overlapped
  exactly by a request of the same fingerprint after its lock, or by any request after the retention
  (`Idempotency.TakenOverExactly`). Its body then overwrites, and is overwritten by, that of the new owner
  (`Idempotency.SlowHandlerOverlaps`), and its failure deletes the new owner's record
  (`Idempotency.SlowFailureFreesTheKey`).
- A cursor carries milliseconds, the database times carry microseconds. Following the cursors returns the
  list exactly when the cursor at the end of every page but the last separates the rows of the table as
  the row itself does (`Pagination.PagesAreTheListExactly`). For the ascending list this says that the
  times at these page ends are whole milliseconds; for the descending one, that nothing which would be
  skipped follows the row within its millisecond (`Pagination.CursorExactInTable`). The times that the
  service writes are whole.
- A play event that became visible five minutes late or later is counted by a run exactly when some event
  of its day was received since the watermark less five minutes (`AggregationRuns.CountedExactly`), and a
  quiet run leaves a day of its window complete exactly when it recomputes the day or the day was complete
  before (`AggregationRuns.QuietDayExactly`).
- A run of the status job can be noticed by a request that read its clock at another time, exactly when a
  start or an end of the submission lies between the two readings (`StatusJob.JobIsNoticedExactly`).

## Model

| member | source | states |
|---|---|---|
| `SeoulTime.AddMonthsResult` | src/common/time/seoul-time.ts:8-26 | for every instant and month count: target month, date clamped to its last day, same Seoul time of day, and the century shift of `Date.UTC` |
| `SeoulTime.AddMonthsExact` | src/common/time/seoul-time.ts:8-26 | n calendar months later on the same or the last day at the same time of day, if and only if the Seoul year is not 0 to 99 |
| `SeoulTime.AddMonthsDateMonotone` | src/common/time/seoul-time.ts:8-26 | a later instant never lands on an earlier Seoul date, for two instants of which both or neither lie in the misread years 0 to 99 |
| `SeoulTime.AddMonthsOrder` | src/common/time/seoul-time.ts:8-26 | the order of any two results, misread years included: by the month as read, then the clamped date, then the time of day |
| `SeoulTime.AddMonthsMonotoneExactly` | src/common/time/seoul-time.ts:8-26 | the order of two instants is kept if and only if they are not on different dates of one month, clamped to one date, with the later one earlier in the day; for both or neither in the misread years |
| `SeoulTime.AddMonthsNotMonotone` | src/common/time/seoul-time.ts:8-26 | an input that shows the reversal: two instants of January 2026 |
| `SeoulTime.ThreeMonthsLater` | src/common/time/seoul-time.ts:8-26 | three months are 81 to 92 days, if and only if the Seoul year is not 0 to 99 |
| `SeoulTime.DayBounds` | src/common/time/seoul-time.ts:28-47 | seoulDate and startOfSeoulDay are inverse: an instant is on a day if and only if it lies between its start and the next |
| `SeoulTime.MinuteOfDay` | src/common/time/seoul-time.ts:33-37 | hours times 60 plus minutes is the minute of the day, 0 to 1439 |
| `SeoulTime.AddDaysIsAddition` | src/common/time/seoul-time.ts:49-53 | addSeoulDays moves the calendar date by exactly that many days |
| `SeoulTime.SeoulIsNineHoursAhead` | src/common/time/seoul-time.ts:1-46 | day 0 and 09:00 at the epoch, the midnight that opens 2026 in Seoul, and days of 24 hours |
| `SeoulTime.PosterErrorsExactly` | src/submissions/kinds/poster.kind.ts:40-53 | a poster has an error exactly if it ends by its start, by now, or after three months, and never one at its start |
| `SeoulTime.EventBannerErrorsExactly` | src/submissions/kinds/event-banner.kind.ts:63-84 | which errors an event banner has: a start off midnight; an end that is over, before the start, off midnight or after more than three days |
| `SeoulTime.PosterPeriodIsBounded` | src/submissions/kinds/poster.kind.ts:40-53 | at a given time a start has only periods of at most 92 days accepted, if and only if its year is not misread or the clock has passed its limit |
| `SeoulTime.AcceptedPosterPeriod` | src/submissions/kinds/poster.kind.ts:40-53 | so every accepted poster period lasts at most 92 days and ends in the future, under any clock past 2000, and under any clock outside the misread years |
| `SeoulTime.AcceptedEventBanner` | src/submissions/kinds/event-banner.kind.ts:63-84 | an event banner is accepted if and only if it ends in the future and is 1, 2 or 3 whole Seoul days |
| `QuietHours.SamplesAreExact` | src/notifications/device-alert-policy.ts:13-19 | the four 30 s samples report quiet if and only if some instant of the last 90 s is quiet, midnight included |
| `QuietHours.RecentlySleeping` | src/notifications/device-alert-policy.ts:13-19 | the sampling loop computes that answer |
| `QuietHours.QuietExactly` | src/lineups/quiet-hours.ts:13-25 | an instant is quiet if and only if it lies in the interval that some range spans from the start of its own Seoul day or of the day before |
| `DeviceAlerts.AlertImpliesSilentAndAwake` | src/notifications/device-alert-policy.ts:21-75 | an alert implies an active device without a heartbeat in the last 90 s that was outside quiet hours for all of them |
| `DeviceAlerts.AlertExcludesRecovery` | src/notifications/device-alert-policy.ts:21-75 | no evaluation both alerts and recovers |
| `DeviceAlerts.StatusExactly` | src/devices/device-status.ts:9-29 | disabled, sleeping, online or offline, from activity, quiet hours and the age of the heartbeat |
| `DeviceAlerts.RecoversExactly` | src/notifications/device-alert-policy.ts:33-75 | an evaluation recovers an incident if and only if it was open, the heartbeat is newer than the observed one and at most 90 s old, and the device is active |
| `DeviceAlerts.AlertsExactly` | src/notifications/device-alert-policy.ts:33-75 | it alerts if and only if an active, once seen device is silent and unedited for more than 90 s, was not quiet in any instant of them, has no earlier incident open and its grace is over |
| `DeviceAlerts.StateExactly` | src/notifications/device-alert-policy.ts:33-75 | what it remembers: status, heartbeat, time, the incident that stays open and the grace |
| `DeviceAlerts.IncidentHeld` | src/notifications/device-alert-policy.ts:33-75 | over any chronological evaluations an open incident persists until a newer heartbeat or an inactive evaluation |
| `DeviceAlerts.AlertsAreSeparated` | src/notifications/device-alert-policy.ts:33-75 | between two alerts of a device lies a strictly newer heartbeat or an evaluation that saw it inactive |
| `DeviceAlerts.GraceAfterSleep` | src/notifications/device-alert-policy.ts:33-75 | no alert within 90 s of an evaluation that found the device asleep or disabled |
| `Outbox.Database.Claim` | src/notifications/notification-dispatcher.service.ts:130-219 | the claim transaction, statement by statement, is the function ClaimTx of rows and lease |
| `Outbox.Database.Finish` | src/notifications/notification-dispatcher.service.ts:79-121 | the closing transaction writes only for the owner of the lease |
| `Outbox.Database.DetectOffline` | src/jobs/device-offline-alert.job.ts:28-112 | the loop over devices yields DetectAll and counts the inserted notifications |
| `OutboxRules.OutageRelevantExactly` | src/notifications/notification-dispatcher.service.ts:221-282 | an outage message is relevant if and only if its channel is on and its incident is the open one of an active device outside quiet hours, with no heartbeat since and none for 90 s |
| `OutboxRules.RecoveryRelevantExactly` | src/notifications/notification-dispatcher.service.ts:221-267 | a recovery message is relevant if and only if its channel is on, the active device has no open incident and a recent heartbeat, and its newest outage is the one of this incident and SENT |
| `OutboxRules.ReminderRelevantExactly` | src/notifications/notification-dispatcher.service.ts:225-226 | a reminder is relevant while its channel is on |
| `OutboxRules.RaisedAlertIsRelevant` | src/jobs/device-offline-alert.job.ts:28-112 | an alert that the job raises is relevant at once, and for as long as device and state stay and quiet hours do not begin |
| `OutboxRules.RecordedRecoveryIsRelevant` | src/jobs/device-offline-alert.job.ts:28-112 | a recovery that the job records is relevant at once if and only if its outage is the newest and SENT |
| `OutboxRules.ClaimExactly` | src/notifications/notification-dispatcher.service.ts:130-219 | what a claim leaves of every row: the expired CANCELED, the one whose turn it is SENDING or, after five attempts, FAILED, every other as it was |
| `OutboxRules.ClaimedLeaseExactly` | src/notifications/notification-dispatcher.service.ts:130-219 | the lease after a claim: held for 60 s, or given back with a gap of 1.1 s |
| `OutboxRules.BusyLeaseBlocks` | src/notifications/notification-dispatcher.service.ts:130-160 | while the lease is held or its gap runs nothing is claimed and no row changes |
| `OutboxRules.FinishExactly` | src/notifications/notification-dispatcher.service.ts:79-121 | each column that the owner's finish writes, with the doubled delay, the retry-after and the 1.1 s gap |
| `OutboxRules.FinishNeedsTheLease` | src/notifications/notification-dispatcher.service.ts:84-103 | a finish without the lease changes nothing |
| `OutboxRules.DetectExactly` | src/jobs/device-offline-alert.job.ts:28-112 | one evaluation inserts an outage if and only if it alerts, and a recovery if and only if it recovers an incident whose outage is PENDING, SENDING or SENT; no other row changes |
| `OutboxRules.RemindExactly` | src/jobs/review-reminder.job.ts:19-38 | the reminder of a slot is inserted once |
| `OutboxSafety.StepKeepsInv` | src/notifications/notification-dispatcher.service.ts:49-282 | every step of every worker, job, crash and expiry keeps the invariant of rows, workers and lease |
| `OutboxSafety.StepExtendsRows` | src/notifications/notification-dispatcher.service.ts:84-219 | no step changes a settled row, the identity of a row, or lowers its attempts |
| `OutboxSafety.CheckFindsLatestOutage` | src/notifications/notification-dispatcher.service.ts:237-267 | a recovery clears its check only when the newest outage of its device is its own incident and SENT |
| `OutboxTheorems.RecoverySendWasChecked` | src/notifications/notification-dispatcher.service.ts:49-66 | in every run a recovery that is handed to Slack was checked by that worker before, and at that check the newest outage of its device was its own incident and SENT |
| `OutboxTheorems.RecoverySendFollowsOutage` | src/notifications/notification-dispatcher.service.ts:163-191 | in every run a recovery is handed to Slack only when the one outage notification of its incident is already SENT |
| `OutboxTheorems.RecoverySentFollowsOutage` | src/notifications/notification-dispatcher.service.ts:163-191 | a recovery is SENT only when the outage of its incident is SENT |
| `OutboxTheorems.OneOutagePerIncident` | src/jobs/device-offline-alert.job.ts:57-109 | every incident that was open at some time of the run has exactly one outage notification and at most one recovery, and no recovery is without its outage |
| `OutboxTheorems.SettledForever` | src/notifications/notification-dispatcher.service.ts:84-217 | SENT, FAILED and CANCELED rows never change again in any column |
| `OutboxTheorems.AtMostFiveSends` | src/notifications/notification-dispatcher.service.ts:190-217 | attempts never exceed 5 and no notification is passed to Slack more than 5 times, over all pods and crashes |
| `OutboxTheorems.ClaimTakes` | src/notifications/notification-dispatcher.service.ts:137-217 | a claim takes an open, due, unexpired row with attempts left, oldest first, and no recovery before its outage is settled |
| `OutboxTheorems.FinishRecords` | src/notifications/notification-dispatcher.service.ts:79-121 | the owner's finish records its outcome in its own row and changes no other |
| `OutboxTheorems.OvertakenFinishIsVoid` | src/notifications/notification-dispatcher.service.ts:84-103 | after a later claim took the lease, an earlier worker's finish changes nothing |
| `OutboxTheorems.OneSendInFlight` | src/notifications/notification-dispatcher.service.ts:36-37 | of the sends within the 60 s lease of their claim at most one is in flight |
| `OutboxTheorems.SendGap` | src/notifications/notification-dispatcher.service.ts:84-101 | after an effective finish the next send starts no sooner than the larger of 1100 ms and the retry-after |
| `OutboxTheorems.Backoff` | src/notifications/notification-dispatcher.service.ts:79-121 | a failed notification is not claimed again before its doubled delay or retry-after has passed |
| `OutboxTheorems.BackoffValues` | src/notifications/notification-dispatcher.service.ts:80-83 | the delays after attempts 1 to 4 are 1, 2, 4 and 8 minutes |
| `OutboxTheorems.TurnIsClaimed` | src/notifications/notification-dispatcher.service.ts:130-219 | in every reachable state with a free lease the row whose turn it is is claimed and owned |
| `OutboxTheorems.RelevantIsSent` | src/notifications/notification-dispatcher.service.ts:49-121 | an undisturbed worker sends a relevant notification once and stores SENT, PENDING or FAILED by the outcome |
| `OutboxTheorems.IrrelevantIsCanceled` | src/notifications/notification-dispatcher.service.ts:49-66 | an undisturbed worker cancels an irrelevant notification and cannot send it |
| `OutboxTheorems.FailedCheckIsRetried` | src/notifications/notification-dispatcher.service.ts:68-78 | a relevance check that throws is treated like an error of Slack that may be retried, without a send |
| `Submissions.CommitIsWellFormed` | src/submissions/submissions.service.ts:363-564 | nothing that a request commits breaks the table's constraints; the version grows by one; PUBLISHED means the start has passed |
| `Submissions.DecisionsFollowTheGraph` | src/submissions/submission-rules.ts:63-132 | a commit follows an edge of the status graph of its request and changes only the fields that this request may change |
| `Submissions.CommitNeeds` | src/submissions/submissions.service.ts:686-701 | only the requester edits, submits and cancels, with the current version; reviews name the current revision; only reviewers suspend posters |
| `Submissions.ApprovalSetsThePeriod` | src/reviews/reviews.service.ts:52-88 | published or scheduled by the period, which has not ended, with ready media; a story is shown for two days under its number |
| `Submissions.StartedOnlySuspends` | src/submissions/submission-rules.ts:69-132 | once its period has begun an approved submission can only be suspended, and after its end nothing can be done to it |
| `Submissions.FinalIsFinal` | src/submissions/submission-rules.ts:69-132 | ended, canceled and archived submissions accept no request |
| `Submissions.Database.CollectChanges` | src/submissions/submissions.service.ts:391-402 | the loop over the resolved fields collects exactly those that differ |
| `Submissions.Database.Create` | src/submissions/submissions.service.ts:168-232 | a new row is inserted if and only if the form fits and the daily limit is not reached |
| `Submissions.Database.ApplyTransition` | src/submissions/submissions.service.ts:663-683 | a decided row and its review are written if and only if the version is still the one that was read |
| `Submissions.Database.Move` | src/jobs/submission-status.job.ts:75-102 | one bulk move, its count, and one audit row for every moved submission and no other |
| `Submissions.Database.Sync` | src/jobs/submission-status.job.ts:36-72 | ended, published, scheduled in this order are SyncAll, with one audit row per moved submission |
| `Submissions.SyncIsTimely` | src/jobs/submission-status.job.ts:36-72 | the three moves give every row the status of its period in one run and touch it at most once |
| `Submissions.SyncIsIdempotent` | src/jobs/submission-status.job.ts:36-72 | a second run at the same time changes nothing |
| `SubmissionRules.ScheduleExactly` | src/submissions/submission-rules.ts:51-63 | a requested period ends in the future and after its start; three months for a poster, three whole Seoul days for an event banner |
| `SubmissionRules.UpdateExactly` | src/submissions/submissions.service.ts:363-504 | for every row and edit: Unchanged if and only if all that is sent equals what is stored and nothing is wrong; stored if and only if something differs and it passes the checks; else which refusal |
| `SubmissionRules.UpdateStoresTheEdit` | src/submissions/submissions.service.ts:391-484 | a committed edit stores exactly what was sent and keeps the rest, differs from the row in columns, detail, period or targets, and returns an approved submission to review |
| `SubmissionRules.SubmitExactly` | src/submissions/submissions.service.ts:507-539 | when a new request for review commits, conflicts, is invalid, unknown or not allowed, and the row it stores |
| `SubmissionRules.CancelExactly` | src/submissions/submissions.service.ts:541-564 | the owner cancels what is not approved or has not started, and nothing else |
| `SubmissionRules.ApproveExactly` | src/reviews/reviews.service.ts:52-109 | approves if and only if the revision is current, the submission waits, its media is ready and its period is not over, and the row it stores |
| `SubmissionRules.RejectExactly` | src/reviews/reviews.service.ts:111-147 | rejects if and only if the revision is current and the submission waits |
| `SubmissionRules.SuspendExactly` | src/reviews/reviews.service.ts:153-206 | a reviewer suspends what is approved and not over, an owner only stories and event banners; else which refusal |
| `SubmissionRules.ReviewsAreRecorded` | src/reviews/reviews.service.ts:76-200 | each decision adds one review that names it, its version and its time |
| `SubmissionRules.CreateExactly` | src/submissions/submissions.service.ts:168-232 | when a new submission is refused, over the limit or stored, and every field of the stored row; three event banners and five stories a day |
| `SubmissionRules.MovesExactly` | src/jobs/submission-status.job.ts:36-72 | which approved rows each of the three bulk updates takes, and what it writes |
| `SubmissionSafety.StepKeepsInv` | src/submissions/submissions.service.ts:363-683 | every interleaving of reads, writes and the job keeps the version history, the copies of open requests and the approvals consistent |
| `SubmissionSafety.CommitsAreSerial` | src/submissions/submissions.service.ts:363-457 | a write that commits was decided on the row as it stands at the commit, although row, detail and targets were read earlier, one by one |
| `SubmissionSafety.WriteTakesEffectExactly` | src/submissions/submissions.service.ts:663-683 | in every run a write stores its row and review if and only if it decides to commit on a copy that is still the row, and changes nothing otherwise |
| `SubmissionSafety.UndisturbedRequestIsStored` | src/submissions/submissions.service.ts:363-457 | in every run a request that commits on the row, detail and targets as they stand is stored with its review |
| `SubmissionSafety.ShownContentWasApproved` | src/reviews/reviews.service.ts:52-109 | in every reachable state an approved, scheduled or published submission has exactly the content it had at the revision of its newest review, and that review is an approval |
| `SubmissionSafety.VersionNamesContent` | src/submissions/submissions.service.ts:433-457 | a version once stored names one content for the rest of the run |
| `SubmissionSafety.FinalForever` | src/submissions/submission-rules.ts:69-132 | in every run ended, canceled and archived submissions never change again |
| `SubmissionSafety.DailyLimitHolds` | src/submissions/submissions.service.ts:816-854 | in every run no user has more than five stories or three event banners that were made on one Seoul day, whatever became of them and whatever the clocks of the requests read |
| `StatusJob.CountsAreTimely` | src/submissions/submissions.service.ts:296-311 | the totals count what the job would write if it ran now, if and only if the submission is not PUBLISHED before its start |
| `StatusJob.PlaylistExactly` | src/playlist/playlist.service.ts:202-253 | which submissions a playlist holds and in which order: period, status, media, groups; priority, start, id |
| `StatusJob.PlaylistIsUnique` | src/playlist/playlist.service.ts:241-245 | a device has one playlist at a time |
| `StatusJob.SummaryExactly` | src/submissions/submissions.service.ts:288-311 | the three totals count the approved rows in scope by their period, and ENDED ones |
| `StatusJob.VerdictTellsTheAnswer` | src/submissions/submissions.service.ts:363-564 | two answers with one verdict are the same or are both commits |
| `StatusJob.RequestsAgree` | src/submissions/submission-rules.ts:69-132 | edit, submit, cancel, approve, reject and suspend get the same verdict on a row that the job moved and on the same row untouched |
| `StatusJob.StepsExactly` | src/submissions/submissions.service.ts:686-701 | a request is decided as it was sent, with the version of the row or another one, and its row is stored when it commits |
| `StatusJob.ReadersAgree` | src/playlist/playlist.service.ts:202-253 | agreeing tables have the same playlists in the same order and the same totals |
| `StatusJob.JobIsInvisible` | src/submissions/submissions.service.ts:280-309 | erasing all job steps from a chronological run changes no verdict, and at any later time no playlist, no total, and no column of a row other than its version and a status that the job may move |
| `StatusJob.JobIsNoticedExactly` | src/jobs/submission-status.job.ts:36-72 | for any two clock readings, a run of the job at one changes the verdict of some request at the other if and only if a start or an end lies between them |
| `StatusJob.StaleClockSeesTheJob` | src/jobs/submission-status.job.ts:36-72 | a run that shows it: with an older clock reading a cancellation is refused that would succeed without the job |
| `Aggregation.TotalsCountEveryEvent` | src/jobs/play-event-aggregation.job.ts:103-111 | impressions plus wall impressions of a group are the number of its events, completed ones are impressions |
| `Aggregation.GroupByCountsEvents` | src/jobs/play-event-aggregation.job.ts:103-118 | summed over all rows, impressions plus wall impressions are the number of events |
| `Aggregation.SumWithout` | src/jobs/play-event-aggregation.job.ts:107-109 | the total duration does not depend on the order of the rows |
| `Aggregation.GroupByAdds` | src/jobs/play-event-aggregation.job.ts:103-118 | one more event changes its own group, in the columns it counts in, and no other group |
| `Aggregation.Tables.Grouped` | src/jobs/play-event-aggregation.job.ts:103-118 | adding up the rows one by one gives the group-by |
| `Aggregation.GroupingExactly` | src/jobs/play-event-aggregation.job.ts:103-118 | the row of a day, submission and device exists if and only if some event starts within that Seoul day with that submission and device; its four columns count exactly these events |
| `Aggregation.TouchedExactly` | src/jobs/play-event-aggregation.job.ts:41-60 | a day is recomputed if and only if it is one of the last 90 and has an event received later than the watermark less five minutes |
| `Aggregation.DeletedExactly` | src/jobs/play-event-aggregation.job.ts:65-68 | what may be deleted: events that start before the last 90 days, 50000 or all of them |
| `Aggregation.RangeIsExact` | src/jobs/play-event-aggregation.job.ts:94-117 | the range of start times loses no event of the listed days |
| `Aggregation.RecomputedDay` | src/jobs/play-event-aggregation.job.ts:84-119 | a recomputed day holds the group-by of its events, every other day keeps its rows |
| `Aggregation.DeletionKeepsWindow` | src/jobs/play-event-aggregation.job.ts:122-135 | the deletion leaves every event of the window |
| `Aggregation.Tables.TouchedDays` | src/jobs/play-event-aggregation.job.ts:47-64 | the sorted list of days with events received since the watermark less five minutes, inside the window |
| `Aggregation.Tables.Recompute` | src/jobs/play-event-aggregation.job.ts:84-119 | delete and reinsert of the listed days |
| `Aggregation.Tables.DeleteExpired` | src/jobs/play-event-aggregation.job.ts:122-135 | at most 50000 rows older than the window are deleted, and fewer only when there are no more |
| `Aggregation.Tables.FinishRun` | src/jobs/play-event-aggregation.job.ts:64-81 | the rest of a run: rows, deletions and watermark |
| `AggregationRuns.StepKeepsBase` | src/jobs/play-event-aggregation.job.ts:40-82 | however late events become visible, the daily rows of the window stay the group-by of the counted events |
| `AggregationRuns.StepKeepsInv` | src/jobs/play-event-aggregation.job.ts:40-82 | with timely events every event of the window that is not counted will be seen by the next run |
| `AggregationRuns.DailyIsGroupBy` | src/jobs/play-event-aggregation.job.ts:40-119 | with events visible within five minutes, after every run each day of the window has the plain group-by of its counted events, which include all that were visible when the run looked |
| `AggregationRuns.QuietRunIsExact` | src/jobs/play-event-aggregation.job.ts:40-119 | with timely events and no arrival during the run each day of the window has the plain group-by of all its events, and its impressions and wall impressions are their number |
| `AggregationRuns.QuietRowsExactly` | src/jobs/play-event-aggregation.job.ts:40-119 | after such a run, row by row: which rows of the window exist and what they count, from the events alone |
| `AggregationRuns.OldDaysNeverChange` | src/jobs/play-event-aggregation.job.ts:58-60 | the rows of a day that left the window never change again |
| `AggregationRuns.WindowIsNeverDeleted` | src/jobs/play-event-aggregation.job.ts:65-68 | no run deletes an event of its window |
| `AggregationRuns.CountedExactly` | src/jobs/play-event-aggregation.job.ts:47-64 | a run counts an event of its window that was not counted yet if and only if some event of that day was received since the watermark less five minutes |
| `AggregationRuns.QuietDayExactly` | src/jobs/play-event-aggregation.job.ts:40-119 | in every run, late events included, a quiet run leaves a day of its window with the group-by of all its events if and only if it recomputes the day or all of them were counted before |
| `AggregationRuns.LateEventIsMissed` | src/jobs/play-event-aggregation.job.ts:16-17 | the five minutes are sharp: a run in which an event becomes visible exactly five minutes late, alone on its day, and is left out |
| `VideoQueue.Service.Claim` | src/assets/video-processing.service.ts:108-140 | takes the oldest free or stale asset that is not excluded, or none if there is none |
| `VideoQueue.Service.Process` | src/assets/video-processing.service.ts:142-233 | give up, reject, release or READY, with the fence on the last two |
| `VideoQueue.Service.DrainOnce` | src/assets/video-processing.service.ts:89-105 | the drain ends; every asset is processed at most once; the counts are those of the outcomes; nothing claimable is left but what failed |
| `VideoQueue.NextExactly` | src/assets/video-processing.service.ts:108-140 | the asset a claim takes: the oldest in processing that is free or whose holder is silent for more than 15 minutes; what it stamps |
| `VideoQueue.WritesExactly` | src/assets/video-processing.service.ts:191-242 | READY and release change the asset only for the worker that holds it, a rejection whoever holds it, and no other asset changes |
| `VideoQueue.OutcomeExactly` | src/assets/video-processing.service.ts:142-233 | more than three attempts or unacceptable media reject, a failure for now retries, the rest is READY |
| `VideoQueue.DrainedExactly` | src/assets/video-processing.service.ts:89-105 | what a drain did to each asset, from its work and its attempts alone, and the counts |
| `VideoQueue.ProcessedAlone` | src/assets/video-processing.service.ts:123-242 | without interference a claim is still held after the work, so the fenced writes take effect |
| `VideoRuns.StepKeepsInv` | src/assets/video-processing.service.ts:108-242 | every step of any number of pods keeps tokens, order of claims and attempt numbers |
| `VideoRuns.OnlyTheLatestClaimWrites` | src/assets/video-processing.service.ts:191-242 | a READY write or a release takes effect only if the worker's claim is the latest of its asset |
| `VideoRuns.WritesTakeEffectExactly` | src/assets/video-processing.service.ts:191-242 | in every run the READY write and the release change the asset if and only if it is in processing and the claim is its latest |
| `VideoRuns.UndisturbedWork` | src/assets/video-processing.service.ts:108-233 | in every state, within three attempts an undisturbed claim ends READY, freed or REJECTED as its work does; a fourth claim can only reject |
| `VideoRuns.UploadsEnd` | src/assets/assets.service.ts:205-253 | an upload becomes READY, REJECTED or waits for processing, and nothing is removed while it is processed |
| `VideoRuns.OvertakenWritesAreVoid` | src/assets/video-processing.service.ts:191-242 | after another claim of the asset the earlier worker's READY write and release change no row |
| `VideoRuns.RejectTakesEffectExactly` | src/assets/asset-files.ts:38-57 | a rejection changes its asset if and only if the asset exists and is being processed, whoever holds it |
| `VideoRuns.RejectIsNotFenced` | src/assets/asset-files.ts:38-57 | in every run the work of the current owner, which would have made the asset READY, is lost when another unfinished worker rejects it |
| `VideoRuns.OvertakenRejectIsReached` | src/assets/video-processing.service.ts:108-149 | such a run: a pod takes over after 15 minutes and uploads, and the first may still reject |
| `VideoRuns.SettledForever` | src/assets/video-processing.service.ts:191-242 | READY and REJECTED rows never change again while they exist, and never come back |
| `VideoRuns.AtMostThreeTranscodes` | src/assets/video-processing.service.ts:142-149 | an asset is transcoded at most 3 times over all claims, takeovers and crashes |
| `Idempotency.Store.Claim` | src/common/idempotency/idempotency.service.ts:41-90 | the upsert, and when it did not take the key the answer from a later read of the record, whatever others have made of it by then |
| `Idempotency.Store.Execute` | src/common/idempotency/idempotency.interceptor.ts:110-130 | a throwing handler releases, a returning one completes, and a failed write changes nothing |
| `Idempotency.Store.DeleteExpired` | src/common/idempotency/idempotency.service.ts:119-125 | removes exactly the expired records and counts them |
| `Idempotency.Poll` | src/common/idempotency/idempotency.interceptor.ts:83-107 | the loop returns the first answer that is not busy, gives up only after 10 s, and polls at most 101 times |
| `Idempotency.ClaimExactly` | src/common/idempotency/idempotency.service.ts:46-90 | for every record, completed or in progress, expired or not: whether a request takes its key, and the answer if not |
| `Idempotency.FreeKeyIsTaken` | src/common/idempotency/idempotency.service.ts:30-67 | a key without a record is taken, locked for 30 s and remembered for 24 h |
| `Idempotency.EndingsExactly` | src/common/idempotency/idempotency.service.ts:92-125 | complete keeps fingerprint and times, release never deletes a stored answer, the cleanup deletes exactly what is past its retention |
| `Idempotency.ExecutionsNeverOverlap` | src/common/idempotency/idempotency.service.ts:36-112 | when handler and complete end within the 30 s lock, executions of one key never overlap |
| `Idempotency.SuccessIsReplayed` | src/common/idempotency/idempotency.service.ts:36-112 | after a success a request of the key executes if and only if it comes after the expiry; before, the same fingerprint replays that body, another one is refused |
| `Idempotency.TakenOverExactly` | src/common/idempotency/idempotency.service.ts:46-67 | while an execution runs, a request takes its key if and only if it has the same fingerprint and comes after the lock, or comes after the retention |
| `Idempotency.OverlapExactly` | src/common/idempotency/idempotency.service.ts:41-90 | exactly then two executions of one key run at once |
| `Idempotency.SlowHandlerOverlaps` | src/common/idempotency/idempotency.service.ts:92-99 | an overlapped handler that returns stores its body, which the new owner's body then replaces |
| `Idempotency.SlowFailureFreesTheKey` | src/common/idempotency/idempotency.service.ts:101-112 | an overlapped handler that throws deletes the new owner's record, so that a third execution starts while the second runs |
| `Idempotency.OverlapIsReached` | src/common/idempotency/idempotency.service.ts:30-31 | a run with a handler that can be overlapped 30 s and a millisecond after its claim |
| `Relay.GameRelay.AddHost` | src/realtime/game-relay.ts:101-110 | new host in place, the other one closed with 4010, ready and host frames sent |
| `Relay.GameRelay.AddPlayer` | src/realtime/game-relay.ts:113-128 | a player joins unless the room is full, and a room created for a refused player is dropped |
| `Relay.GameRelay.Remove` | src/realtime/game-relay.ts:131-142 | host or player leaves, the others are told, an empty room is dropped |
| `Relay.GameRelay.FromHost` | src/realtime/game-relay.ts:145-149 | messages of the current host only |
| `Relay.GameRelay.FromPlayer` | src/realtime/game-relay.ts:152-156 | messages of present players to a present host only |
| `Relay.HostArrives` | src/realtime/game-relay.ts:101-110 | what every socket is sent when a host comes, the close of the one before and the room |
| `Relay.PlayerArrives` | src/realtime/game-relay.ts:113-128 | a player is refused exactly when 30 are present; otherwise what every socket is sent and the room |
| `Relay.SocketLeaves` | src/realtime/game-relay.ts:131-142 | what every socket is sent when a host, a player or neither leaves, and when the room is dropped |
| `Relay.HostIsReached` | src/realtime/game-relay.ts:159-182 | a control message reaches the present host alone, closing it is noted with the code |
| `RelayRuns.CallKeepsInv` | src/realtime/game-relay.ts:73-182 | every call keeps rooms bounded, sockets in place, players and hosts informed |
| `RelayRuns.PlayersAreInformed` | src/realtime/game-relay.ts:101-142 | each player's last host frame says online exactly when its room has a host |
| `RelayRuns.HostIsInformed` | src/realtime/game-relay.ts:101-142 | the current host's joins minus lefts since ready are exactly the present players that joined after it |
| `RelayRuns.RoomsAreBounded` | src/realtime/game-relay.ts:85-128 | no empty room is kept and no room holds more than 30 players |
| `RelayRuns.MessagesAreDelivered` | src/realtime/game-relay.ts:145-156 | a message appends one frame to each receiver and to nobody else |
| `RelayRuns.GoneSocketsChangeNothing` | src/realtime/game-relay.ts:131-156 | messages and the close of a replaced or removed socket change nothing |
| `RelayRuns.ReplacedHostIsGone` | src/realtime/game-relay.ts:101-110 | a replaced host is closed with 4010 and never comes back |
| `RateLimit.MessageBudget.Take` | src/realtime/game-relay.ts:201-211 | one call of the token bucket |
| `RateLimit.Serve` | src/realtime/game-relay.ts:193-212 | any sequence of calls of one budget is answered as the bound below counts it |
| `RateLimit.RateIsBounded` | src/realtime/game-relay.ts:193-212 | between any two calls at most 20 plus 20 times the elapsed seconds are accepted |
| `RateLimit.AcceptedExactly` | src/realtime/game-relay.ts:193-212 | a call is accepted if and only if it stays within 20 messages plus 20 a second since every earlier call |
| `RateLimit.SteadySenderIsAccepted` | src/realtime/game-relay.ts:193-212 | a sender that keeps 50 ms between messages never loses one |
| `ProgramRefs.Tables.CheckPrograms` | src/lineups/lineups.service.ts:218-250 | an error for exactly the paths with a missing or unfit program, of a kind that a reference there has; none if and only if all references are good |
| `ProgramRefs.Tables.BlockIdErrors` | src/lineups/lineups.service.ts:363-382 | exactly the unknown and the repeated ids, each with its error; none if and only if the ids are known and distinct |
| `ProgramRefs.SavedFits` | src/lineups/lineups.service.ts:110-140 | the check succeeds if and only if the lineup that is then written fits the programs |
| `ProgramRefs.SavedExactly` | src/lineups/lineups.service.ts:131-148 | a save raises the version by one and stores info bar and blocks as sent, under the ids sent or new ones |
| `ProgramRefs.ErrorsExactly` | src/lineups/lineups.service.ts:218-250 | which error a reference and a block id get |
| `ProgramRefs.Tables.Replace` | src/lineups/lineups.service.ts:87-159 | not found, conflict, invalid or the new lineup, in this order |
| `ProgramRefs.Tables.SaveOverrides` | src/devices/devices.service.ts:171-193 | overrides are checked again at every save and stored without the blocks that the group does not have |
| `ProgramRefs.PruningKeepsTheLineup` | src/lineups/resolve-lineup.ts:36-62 | pruning changes nothing of what the device follows |
| `ProgramRefs.OverridesTakeEffect` | src/lineups/resolve-lineup.ts:24-47 | what a device follows after a save: each block with the state and time of its override where that names them, its own info bar if it has one |
| `ProgramRefs.PrunedExactly` | src/lineups/resolve-lineup.ts:49-62 | the overrides that are kept: of the group's blocks, those that change something |
| `ProgramRefs.UsersExactly` | src/programs/program-references.ts:35-89 | a group uses a program in a block or its info bar, a device in its own info bar |
| `ProgramRefs.Tables.ProgramUsageOf` | src/programs/program-references.ts:35-89 | for every program the sorted lists of exactly the referring groups and devices |
| `ProgramRefs.Tables.Remove` | src/programs/programs.service.ts:129-153 | removes an existing program if and only if nothing uses it |
| `ProgramLocks.StepKeepsInv` | src/programs/programs.service.ts:129-153 | every step of overlapping saves and removals keeps references and locks consistent |
| `ProgramLocks.CommittedReferencesHold` | src/lineups/lineups.service.ts:87-250 | in every committed state each named program exists and each info bar entry fits its slot |
| `ProgramLocks.FollowedLineupFits` | src/lineups/resolve-lineup.ts:24-47 | so the lineup that a device follows, overrides included, names only existing fitting programs |
| `ProgramLocks.RemovedProgramIsUnused` | src/programs/programs.service.ts:129-153 | a committing removal finds the program unused, also by every save that is still open |
| `ProgramLocks.SavesAreSerial` | src/lineups/lineups.service.ts:87-148 | in every run a checked save that is not aborted may commit, and replaces the very lineup it was checked against, so that no save of the group is lost |
| `ProgramLocks.VersionsCountSaves` | src/lineups/lineups.service.ts:139-148 | in every run the version of a lineup is one more than the number of its committed saves |
| `ProgramLocks.LineupCheckExactly` | src/lineups/lineups.service.ts:87-130 | when a lineup save gets past its check: valid, no open save of its group, no removal of a program it names |
| `ProgramLocks.DeviceCheckExactly` | src/devices/devices.service.ts:171-193 | when a device save gets past its check, and that it may then store what it checked |
| `ProgramLocks.LockExactly` | src/programs/programs.service.ts:129-153 | when a removal locks its program |
| `ProgramLocks.RowsExactly` | src/lineups/lineups.service.ts:283-306 | a new group starts with version 1 and one enabled block; a group goes unless it is being saved |
| `ProgramLocks.UnusedIsRemovable` | src/programs/programs.service.ts:129-153 | an unused program that nobody has locked can be removed |
| `ResolveLive.PartIsPicked` | src/live/resolve-live.ts:32-45 | a part is the device's if that is live, else the live one of the group set last, else none |
| `ResolveLive.ResolvedParts` | src/live/resolve-live.ts:32-55 | main and alert are picked independently, setAt and setBy are of the newest layer that gave a part |
| `ResolveLive.ShownExactly` | src/live/resolve-live.ts:32-55 | what a device shows for main and alert, from device, groups and the clock alone |
| `ResolveLive.ActiveLayerExactly` | src/live/resolve-live.ts:11-25 | the parts without an end or with one to come stay, the others are dropped, nothing remains of a layer with neither |
| `ResolveLive.SortIsStable` | src/live/resolve-live.ts:37-41 | groups that were set at the same time keep their order |
| `ResolveLive.ActiveLayersSuffice` | src/live/resolve-live.ts:15-55 | applying activeLayer to every layer first changes nothing |
| `ResolveLive.GroupOrderIsIrrelevant` | src/live/resolve-live.ts:32-55 | groups with distinct setAt may come in any order |
| `Pagination.CursorIsExact` | src/common/pagination/page.ts:32-36 | over all rows that a table could hold, a cursor separates those after its row if and only if the row's time is a whole millisecond |
| `Pagination.CursorExactInTable` | src/submissions/submissions.service.ts:249-257 | in a given table: ascending, if and only if the row's time is whole; descending, if and only if nothing that would be skipped follows it within its millisecond |
| `Pagination.PagesAreTheListExactly` | src/submissions/submissions.service.ts:249-278 | following nextCursor returns the whole list and stops, if and only if the cursor is exact in the table at the end of every page but the last; both directions, any limit |
| `Pagination.PagesAreTheList` | src/submissions/submissions.service.ts:621-656 | with the whole milliseconds that the service writes, following nextCursor returns every filtered row exactly once in sort order, in full pages but the last, and stops; both directions |

## Left out

- `SeoulTime.AddMonthsResult`: the range of JavaScript dates (TimeClip, 8.64e15 ms) is not modelled, all integers are instants.
- Seoul dates are day numbers. The source compares YYYY-MM-DD strings, which order the same way for years 0 to 9999.
- `OutboxTheorems.AtMostFiveSends`: counts calls of the Slack client; whether Slack showed a message that a crashed worker sent is unknown to the code too.
- `OutboxTheorems.RecoverySendWasChecked`: the relevance check reads the device with its alert state and then the outages; the model reads them in one step, with any device view.
- Message texts, presentation, the daily review reminder's schedule and the Slack client. A send is a step with an arbitrary outcome.
- Deletion of devices, and the heartbeat endpoint that writes lastSeenAt. Evaluations take any device rows.
- Kinds resolve their input in code that reads assets, categories and notices; here a request brings the resolved columns and whether errors were found.
- The unique index on active notices. It depends on the job writing ENDED, so it is no part of the theorem on the status job; nor are version numbers.
- `SubmissionSafety.DailyLimitHolds`: counting and inserting are one step, since the advisory lock of a user and kind puts their creations one after the other.
- The audit log of requests.
- `SubmissionSafety.ShownContentWasApproved`: the newest review is the one committed last. The source sorts by reviewedAt and id, which may differ for requests that overlap. The story's period and number are set on approval and are not part of the content.
- `StatusJob.JobIsInvisible`: a request reads, decides and writes at one time, with the current version of its row or an older one. A job run between read and write of one request makes it answer 409, which this theorem does not describe.
- `AggregationRuns.DailyIsGroupBy`: clock readings do not go back from run to run, and one run works at a time under the job lock.
- `VideoRuns.OvertakenWritesAreVoid`: claims of one asset read clocks that do not go back; the fencing token is a time.
- `VideoQueue.Service.DrainOnce`: the outcome of the work and the clock are given by the caller; other pods appear in `VideoRuns` only. The shared promise of overlapping drains is not modelled.
- Files in storage: uploads, originals, variants and their deletion queue.
- `Idempotency.Poll`: the answers to the polls are given; sleeping is at least 100 ms.
- Fingerprints are strings that stand for the SHA-256 of method, URL and body.
- `RateLimit.RateIsBounded`: tokens are real numbers, not doubles.
- Authentication, heartbeats, message sizes and connection counts of the relay, and reading the client's address.
- Block schedules and perVisit of a lineup, and the other settings than the info bar, carry no reference and are not modelled.
- `ProgramLocks.CommittedReferencesHold`: the slot of a program type is stored with the program; a deployment that changes the registry is not modelled. Live states may name a removed program, as in the source.
- `Pagination.PagesAreTheList`: the table is fixed during the walk. The cursor's encoding is not modelled.
- Controllers, validation schemas, statistics, image variants and role management hold little logic of this kind.
