# Verified models of genro-mail-proxy

genro-mail-proxy queues mail, sends it through SMTP accounts with rate limits, records what
happened in an append-only event log, and reports the events to the tenants.  This project
models the parts of it that carry state from one call to the next, and proves what they keep:
over single operations, over whole runs, and over interleavings of several of them.

| module | models |
|---|---|
| `RateLimiting` | the sliding-window limiter with reservations for sends under way |
| `SmtpPool` | the connection pool, whose connects run outside its lock |
| `MailStore`, `OrderedQuery` | the message and event tables, their trigger, and the paged queries |
| `SendSystem` | dispatcher, limiter, mail server, submissions, notices, reporter, retention, deletion and restarts as one interleaved step system |
| `Sender`, `BatchSelection` | one dispatch, and which messages of a fetched batch are dispatched |
| `Reporting` | the reporter's cycle, wake-ups, and what tenants that never answer cause |
| `Enqueue` | the addMessages command |
| `MemoryCache`, `CachePath`, `DiskCache`, `TieredCache` | the attachment cache, which file a key names, and the fetch that uses it |
| `BatchSuspension`, `Text` | batch suspension, a set stored as a comma-joined string, and its three readers |
| `ImapCursor` | the bounce mailbox cursor |
| `DownloadToken` | signed download tokens |

Objects that the program updates in place are classes here.  Each method is proved against a
function of the old state (`AfterCheck`, `AfterRelease`, `AfterSet`, ...), and the properties are
proved about those functions and about runs of them.  For each such function a lemma also says on
the raw columns, fields and literal times what it decides (`RateLimiting.GrantedOnColumns`,
`MailStore.FetchReadyOnColumns`, `Enqueue.AcceptedRow`, ...).  `Sender.DispatchIsARun`,
`Reporting.CycleIsARun` and `Enqueue.EnqueueIsARun` show that what these methods do in one go is
a run of `SendSystem`, so the safety theorems there cover them.

Assumptions:

- The clock does not run backwards, and times are positive; times are whole seconds.
- Every table operation is atomic, except that anything may happen between the read and the
  write-back of a resubmission's `record()` (`src/sql/table.py`) but the record of a send of that
  message; `MailStore.SplitRecordForgetsSend` shows what that would lose.
- The addMessages command runs without other steps in between, except in `Enqueue.EnqueueIsARun`,
  `InterleavedConserves` and `SendBetweenTurnsLosesAnItem`.
- The process may restart at any time in the runs of `SendSystem`, `Reporting` and `ImapCursor`.
  The other modules that live in memory (`RateLimiting`, `SmtpPool`, `MemoryCache`) start empty, so
  their runs are those of one lifetime of the process.
- One dispatcher process, which starts a batch when the previous one has ended.
- Every account id has one fixed record of limits; `RateLimiting.SharedIdOverrunsLimit` shows what
  happens otherwise.
- A connect of the pool ends, with a connection or an exception; live connections have unique ids.
- Network, SMTP, IMAP and HTTP answers, the file system's refusals, how far a write gets, what
  lies outside the cache directory, the digest, the signature and how the database reads LIKE
  (SQLite ignores the case of letters, PostgreSQL reads backslashes as escapes) are parameters, and
  the theorems hold for all of them.  Digests are names without slashes and dots.

Where the code and its documentation differ, the code is followed:

- The limiter's class comment promises the earliest safe time for a deferral.  The time given is
  the next calendar boundary, where the message can be refused again
  (`RateLimiting.DeferralCanBeRefusedAgain`; `RetryGrantedIff` says when it is not).
- The comment in addMessages says `ok` is false only when all messages failed validation.  It is
  also false when the valid ones had all been sent before (`Enqueue.FailureIff`).
- The protocol documentation says a tenant is not called until its `next_sync_after` time T.  It is
  not called until five minutes after T, unless it is woken or the process restarts
  (`Reporting.DoNotDisturbIff`).

Properties that hold only under a condition are stated with the exact condition, and with a case
where they fail:

- The server takes a message once more for every acceptance the client does not learn of, and for
  no other reason: it sees a failure, such as the 30-second timeout, although the server has the
  message, or the sending task stops before its record (`SendSystem.ServerTakesOncePlusLosses`,
  `TimedOutSendIsRepeated`, `LostAcceptanceIsFetchedAgain`).
- The limits bound what the server took in one lifetime of the process, except for acceptances
  that the client saw as failures, whose slots it gives back (`SendSystem.NoAccountOverLimit`,
  `UnansweredFreesItsSlot`).  Every restart allows the limit once more
  (`RestartsMultiplyLimit`, `RestartForgetsSends`).
- The status column is what the log implies exactly while no resubmission writes back a row too
  late: after an event since its read that left the message another status
  (`SendSystem.StatusHoldsIff`).
- An event that no call has carried stays eligible, but it is fetched exactly while fewer than a
  page of eligible events rank before it (`MailStore.FetchedIff`), and tenants that never answer
  hold the page for ever (`Reporting.SilentTenantsHoldThePage`).
- A dispatch records its one event exactly when building the message raises nothing but the errors
  that are caught (`Sender.DispatchEffect`); otherwise the message comes back in every cycle
  (`RaisedComesBack`).
- A cache hit is genuine exactly for keys that are plain names: others can name the same file
  (`TieredCache.HitsAreGenuine`, `AliasHitIsNotGenuine`, `CachePath.PlainIff`); and only while no
  write to that file was torn (`TornReadOutlivesWrite`).
- A bounce is dealt with at most once in each lifetime of the process, and again after every
  restart if it stays in the mailbox (`ImapCursor.OncePerLifetime`, `RestartDealsAgain`).
- The query and the code read a suspended batch alike exactly for nonempty codes without commas,
  wildcards and whatever else LIKE reads specially (`BatchSuspension.ReadersAgreeIff`).
- Release of a pooled connection by a task that no longer holds it (`SmtpPool.OwnershipIff`),
  batches that mix tenants (`Enqueue.EnqueueConserves`), sends between the turns of a batch
  (`Enqueue.InterleavedConserves`), failed IMAP fetches (`ImapCursor.EveryMessageAccounted`),
  attachment keys that are not the digest of the bytes (`TieredCache.FetchIsTransparentIff`), file
  ids with colons in download tokens (`DownloadToken.SameMessageIff`).

## Model

| member | source | states |
|---|---|---|
| RateLimiting.RateLimiter.constructor | src/core/mail_proxy/smtp/rate_limiter.py:74-85 | a new limiter has, for every account, no history and no reservation |
| RateLimiting.RateLimiter.CountSince | src/core/mail_proxy/smtp/rate_limiter.py:87-101 | the number of logged sends strictly after a time |
| RateLimiting.RateLimiter.CleanupOldEntries | src/core/mail_proxy/smtp/rate_limiter.py:103-116 | drops the leading entries at least a day old, of this account only |
| RateLimiting.RateLimiter.CheckAndPlan | src/core/mail_proxy/smtp/rate_limiter.py:118-228 | the decision and the new ledger of the account; every other account's ledger unchanged |
| RateLimiting.RateLimiter.LogSend | src/core/mail_proxy/smtp/rate_limiter.py:230-249 | settles one reservation, never below zero, and appends the send; other accounts unchanged |
| RateLimiting.RateLimiter.ReleaseSlot | src/core/mail_proxy/smtp/rate_limiter.py:251-262 | settles one reservation, never below zero; history and other accounts unchanged |
| RateLimiting.RateLimiter.PurgeForAccount | src/core/mail_proxy/smtp/rate_limiter.py:264-282 | forgets one account and returns how many sends it had logged |
| RateLimiting.PruneExact | src/core/mail_proxy/smtp/rate_limiter.py:103-116 | on an ordered history, pruning keeps exactly the entries younger than a day, in order |
| RateLimiting.PruneKeepsCounts | src/core/mail_proxy/smtp/rate_limiter.py:87-116 | pruning changes no count that any window asks for |
| RateLimiting.GrantedIff | src/core/mail_proxy/smtp/rate_limiter.py:118-228 | a send is allowed if and only if every configured window has room for it beside all open reservations |
| RateLimiting.BlockedUntil | src/core/mail_proxy/smtp/rate_limiter.py:118-228 | a refusal names the shortest full window; the proposed time is the next multiple of its length, at most one window away |
| RateLimiting.GrantedOnColumns | src/core/mail_proxy/smtp/rate_limiter.py:118-228 | granted if and only if each of limit_per_minute, limit_per_hour and limit_per_day, if positive, exceeds the sends of the last 60, 3600 and 86400 seconds plus the open reservations |
| RateLimiting.BlockedOnColumns | src/core/mail_proxy/smtp/rate_limiter.py:180-228 | the time of a refusal: the next full minute if the limit per minute is full, else hour if that per hour is, else day; rejecting if and only if the behaviour is "reject" |
| RateLimiting.CheckedOnColumns | src/core/mail_proxy/smtp/rate_limiter.py:118-228 | a check leaves the sends of the last day and one reservation more if granted, for an account with a positive limit; for any other it changes nothing |
| RateLimiting.CountIsNumber | src/core/mail_proxy/smtp/rate_limiter.py:87-101 | the count after a time is the number of places with a later send |
| RateLimiting.DeferralCanBeRefusedAgain | src/core/mail_proxy/smtp/rate_limiter.py:68-69 | a concrete case where the proposed time is refused again |
| RateLimiting.RetryGrantedIff | src/core/mail_proxy/smtp/rate_limiter.py:180-198 | a refused account may send at the proposed time if and only if in every configured window ending then the logged sends and the reservations leave room; for the window that refused, those are the sends of the current calendar window |
| RateLimiting.ReleasedGrantRepeats | src/core/mail_proxy/smtp/rate_limiter.py:118-262 | a grant whose slot is released again is granted again at the same time |
| RateLimiting.StepConsistent | src/core/mail_proxy/smtp/rate_limiter.py:118-262 | every call keeps, for all windows at once, logged sends plus reservations within the limit, against the unpruned history |
| RateLimiting.RateLimitNeverExceeded | src/core/mail_proxy/smtp/rate_limiter.py:118-262 | in every run that settles each grant at most once, at every time and for each window W, the sends logged in (t-W, t] stay within the limit |
| RateLimiting.ColumnsNeverExceeded | src/core/mail_proxy/smtp/rate_limiter.py:118-262 | the same bound on the columns: in any 60, 3600 and 86400 seconds the logged sends stay within limit_per_minute, limit_per_hour and limit_per_day |
| RateLimiting.PrunedLimiterEqualsUnpruned | src/core/mail_proxy/smtp/rate_limiter.py:87-228 | no run of calls, disciplined or not, can tell this limiter from one that never prunes |
| RateLimiting.SharedIdOverrunsLimit | src/core/mail_proxy/smtp/rate_limiter.py:147-164 | two records that share an account id break the bound |
| SmtpPool.SMTPPool.constructor | src/core/mail_proxy/smtp/pool.py:85-108 | a new pool is empty |
| SmtpPool.SMTPPool.AcquirePass | src/core/mail_proxy/smtp/pool.py:217-243 | one pass through the lock: which of four ways it ends, the last idle connection being usable if it is at most the ttl old and alive, and the three dictionaries afterwards |
| SmtpPool.SMTPPool.ConnectOk | src/core/mail_proxy/smtp/pool.py:249-251 | a finished connect is tracked under its key |
| SmtpPool.SMTPPool.ConnectFailed | src/core/mail_proxy/smtp/pool.py:252-255 | a failed connect gives its reserved slot back |
| SmtpPool.SMTPPool.Release | src/core/mail_proxy/smtp/pool.py:269-302 | a tracked connection becomes idle if alive and its slot is free; an untracked one changes nothing |
| SmtpPool.SMTPPool.Healthy | src/core/mail_proxy/smtp/pool.py:361-384 | the idle connections that are neither too old nor dead, in their order |
| SmtpPool.SMTPPool.Cleanup | src/core/mail_proxy/smtp/pool.py:361-384 | every idle list is reduced to its healthy connections and empty lists vanish |
| SmtpPool.SurvivorsExact | src/core/mail_proxy/smtp/pool.py:361-384 | cleanup keeps a connection if and only if it is at most the ttl old and alive |
| SmtpPool.AcquireOnDictionaries | src/core/mail_proxy/smtp/pool.py:217-243 | with an idle connection, the last one leaves the list, taken if usable and else dropped; without one, a slot is reserved if and only if the active count is below the maximum; other keys unchanged |
| SmtpPool.CleanupOnDictionaries | src/core/mail_proxy/smtp/pool.py:361-384 | each idle list keeps exactly its young and live connections in their order, a list left empty goes, counts and keys stay |
| SmtpPool.ReleasedIsNext | src/core/mail_proxy/smtp/pool.py:217-302 | a live connection that is released is the next one handed out for its key if it is alive and at most the ttl has passed since the release, and is dropped otherwise; a dead one is not kept |
| SmtpPool.FirstConnection | src/core/mail_proxy/smtp/pool.py:217-302 | from an empty pool with a positive maximum a task connects, releases, and another takes the same connection |
| SmtpPool.ClampNeverClips | src/core/mail_proxy/smtp/pool.py:290-290 | under exact accounting the clamp at zero and the default for a missing count never take effect |
| SmtpPool.StepAccounted | src/core/mail_proxy/smtp/pool.py:217-302 | every locked section, run by any task at any moment, keeps the count exact, the capacity bound, and idle and checked-out connections apart |
| SmtpPool.PoolCapacity | src/core/mail_proxy/smtp/pool.py:217-302 | in every interleaving idle plus active stay within the maximum, the active count is exactly checked-out plus pending connects, and a connection handed out for a key was opened for it |
| SmtpPool.PoolOwnership | src/core/mail_proxy/smtp/pool.py:217-302 | while holders alone release, no connection has two holders, nor is idle or handed out while held |
| SmtpPool.ReleaseExclusiveIff | src/core/mail_proxy/smtp/pool.py:280-297 | a release keeps ownership exclusive if and only if the connection is untracked or released by its holder |
| SmtpPool.OwnershipIff | src/core/mail_proxy/smtp/pool.py:217-302 | in a possible interleaving every connection has exactly one holder while checked out, at every moment, if and only if holders alone release |
| SmtpPool.RogueReleaseSharesConnection | src/core/mail_proxy/smtp/pool.py:280-297 | after a second release of a connection handed on meanwhile, the next acquire gives it to two tasks |
| SmtpPool.StepFaithful | src/core/mail_proxy/smtp/pool.py:233-297 | connections serve only the key they were opened for |
| OrderedQuery.PageSpec | src/core/mail_proxy/entities/message/table.py:420-428 | a page is as long as the limit allows, strictly ordered, and leaves out only later rows |
| OrderedQuery.PageAscending | src/core/mail_proxy/entities/message/table.py:420-428 | the order on the columns: the first, the second and the key, all ascending, among the listed rows and against those left out |
| OrderedQuery.PageComplete | src/core/mail_proxy/entities/message/table.py:420-428 | when the limit is not reached every matching row is listed |
| OrderedQuery.PageMemberIff | src/core/mail_proxy/entities/message_event/table.py:215-245 | a matching row is on the page if and only if fewer matching rows than the limit rank before it |
| MailStore.MailStore.constructor | src/core/mail_proxy/entities/message/table.py:123-153 | the tables start empty |
| MailStore.MailStore.SetDeferredRow | src/core/mail_proxy/entities/message/table.py:433-444 | the message is pending with a deferral; a missing row stays missing |
| MailStore.MailStore.ClearDeferredRow | src/core/mail_proxy/entities/message/table.py:446-453 | only the deferral is cleared |
| MailStore.MailStore.MarkSent | src/core/mail_proxy/entities/message/table.py:455-464 | the message is processed at that time and not deferred |
| MailStore.MailStore.MarkError | src/core/mail_proxy/entities/message/table.py:466-475 | the message is processed at that time and not deferred |
| MailStore.MailStore.UpdatePayloadRow | src/core/mail_proxy/entities/message/table.py:477-485 | only the payload changes |
| MailStore.MailStore.Add | src/core/mail_proxy/entities/message_event/table.py:123-194 | appends the event and runs the trigger on its message, none for a zero timestamp |
| MailStore.MailStore.SubmitRow | src/core/mail_proxy/entities/message/table.py:302-359 | one entry: skipped without tenant or when processed, overwritten when pending, else inserted |
| MailStore.MailStore.InsertBatch | src/core/mail_proxy/entities/message/table.py:246-361 | the table and the list of queued entries after a whole batch |
| MailStore.MailStore.MarkReportedRows | src/core/mail_proxy/entities/message_event/table.py:247-259 | exactly the listed events get the timestamp |
| MailStore.MailStore.RemoveFullyReportedRows | src/core/mail_proxy/entities/message/table.py:594-626 | exactly the removable messages go; events stay |
| MailStore.SubmitKeepsStatus | src/core/mail_proxy/entities/message/table.py:329-357 | submitting changes no status and no processed row, and new rows start pending |
| MailStore.QueuedIsPending | src/core/mail_proxy/entities/message/table.py:329-359 | a queued entry is in the table, pending, with the entry's content, created now if it is new; every other row as it was |
| MailStore.EventOnColumns | src/core/mail_proxy/entities/message_event/table.py:123-160 | sent and error set the status and clear the deferral, deferred clears the status and sets the deferral to its metadata or else the event's time; notices and events without a time change nothing, and no event another row |
| MailStore.RowUpdates | src/core/mail_proxy/entities/message/table.py:433-485 | each single-row update writes one row, and of it only its columns |
| MailStore.FetchReadySpec | src/core/mail_proxy/entities/message/table.py:390-431 | a fetched batch holds distinct ready messages in order, and only later ready ones are left out, for either database's LIKE |
| MailStore.FetchReadyOnColumns | src/core/mail_proxy/entities/message/table.py:390-431 | a message is fetched if and only if it is unprocessed, its deferral is past, its priority is selected and its tenant's column does not hold it back, and fewer such messages than the limit have a smaller priority number, or the same and an earlier creation, or both and a smaller key |
| MailStore.FetchReadyInOrder | src/core/mail_proxy/entities/message/table.py:420-428 | fetched rows ascend by priority number, creation and key, and so against every ready row left out |
| MailStore.FetchUnreportedSpec | src/core/mail_proxy/entities/message_event/table.py:215-245 | the reporter fetches distinct, unreported events of existing messages |
| MailStore.FetchUnreportedOnColumns | src/core/mail_proxy/entities/message_event/table.py:215-245 | an event is fetched if and only if it has no report time, its message exists, and fewer such events than the limit have an earlier time, or the same and a smaller key; and the page is in that order |
| MailStore.FetchedIff | src/core/mail_proxy/entities/message_event/table.py:215-245 | an event is fetched if and only if it is unreported, its message exists, and fewer such events than the limit are older |
| MailStore.RetentionExact | src/core/mail_proxy/entities/message/table.py:594-626 | the DELETE with its subqueries removes a message if and only if it is processed, has events, and each is reported before the threshold; no event eligible for a report stops being so |
| MailStore.LastReportedSpec | src/core/mail_proxy/entities/message/table.py:618-621 | the subquery's maximum is the latest report time among the message's reported events, and NULL if there is none |
| MailStore.RemovableIff | src/core/mail_proxy/entities/message/table.py:608-622 | the DELETE's two subqueries together say that there are events and all are reported before the threshold |
| MailStore.AddEventKeepsStatus | src/core/mail_proxy/entities/message_event/table.py:123-160 | after any event the status column is still the one the log implies |
| MailStore.StatusKept | src/sql/table.py:59-86 | updates that add no event and keep old statuses keep column and log in agreement |
| MailStore.LateWriteKeepsStatusIff | src/sql/table.py:59-86 | a resubmission written back keeps column and log in agreement if and only if the last effective event of the message since the read, if any, gives the status that was read: for a pending row, if it is a deferral |
| MailStore.SplitRecordForgetsSend | src/sql/table.py:59-86 | a send recorded between read and write-back is forgotten, and the message is fetched again |
| SendSystem.StepKeys | src/core/mail_proxy/entities/message/table.py:302-361 | every step keeps (tenant, id) unique, keys given out once, and rows read for write-back those of their messages |
| SendSystem.StepSends | src/core/mail_proxy/smtp/sender.py:397-667 | every step keeps: a pending message, or one whose task has not recorded its send, has no "sent" event |
| SendSystem.StepStatus | src/core/mail_proxy/entities/message_event/table.py:123-160 | every step but a write-back keeps the status column equal to what the log implies |
| SendSystem.StepStatusIff | src/sql/table.py:59-86 | a step keeps the status column equal to what the log implies if and only if it does not write back a row after an event that gave the message another status |
| SendSystem.StepReads | src/sql/table.py:59-86 | every step keeps: a row that was pending when it was read for write-back had no "sent" event before the read |
| SendSystem.DispatcherSettlesOnlyReserved | src/core/mail_proxy/smtp/sender.py:520-660 | the dispatcher calls `log_send` and `release_slot` only for a reservation it holds |
| SendSystem.StepBooks | src/core/mail_proxy/smtp/sender.py:520-660 | every step keeps each account's book consistent with its open reservations |
| SendSystem.StepBalanced | src/core/mail_proxy/smtp/sender.py:520-660 | every step keeps: each acceptance whose slot was kept is logged or has an open reservation of its own, beside those of tasks still sending |
| SendSystem.TakingFits | src/core/mail_proxy/smtp/sender.py:563-660 | while that holds, a task with a reservation can have its message taken at any time without any window going over its limit |
| SendSystem.StepReports | src/core/mail_proxy/reporting/client_reporter.py:214-302 | every step keeps: marked events were delivered, and unmarked ones are eligible unless their message was deleted on request or was already gone when they were recorded |
| SendSystem.NoMessageSentTwice | src/core/mail_proxy/smtp/sender.py:285-667 | no run, restarts included, records two "sent" events for one message, although deferral resets its status and resubmissions write back rows read before deferrals and errors |
| SendSystem.ResubmittedInTwoSteps | src/sql/table.py:59-86 | a resubmission whose read and write-back have a notice in between leaves the row with the entry's fields, pending |
| SendSystem.NoAccountOverLimit | src/core/mail_proxy/smtp/sender.py:318-667 | in every run of overlapping sends, any of which may stop before logging or settling its reservation, the messages the server took in each lifetime of the process and the sends logged stay within each limit in every window; acceptances that the client saw as failures are not counted |
| SendSystem.NoColumnExceeded | src/core/mail_proxy/smtp/sender.py:318-667 | what the server took in one lifetime of the process stays within each of the three columns in any minute, hour and day |
| SendSystem.AcceptanceIsNoted | src/core/mail_proxy/smtp/sender.py:563-660 | an acceptance is noted at its time for the account of its task, also when the task stops there; one the client saw as a failure apart |
| SendSystem.RestartKeepsTables | src/core/mail_proxy/smtp/rate_limiter.py:15-17 | a restart keeps the tables and forgets tasks, books, rows read and the page; the acceptances so far become the history of a past lifetime |
| SendSystem.RestartsMultiplyLimit | src/core/mail_proxy/smtp/rate_limiter.py:15-17 | over all lifetimes the server takes at most the limit once, and once more for every restart since the window began |
| SendSystem.RestartForgetsSends | src/core/mail_proxy/smtp/rate_limiter.py:15-17 | after a restart every account is granted at once, whatever it sent before |
| SendSystem.UnansweredFreesItsSlot | src/core/mail_proxy/smtp/sender.py:563-569 | of two messages that one free slot was for, the server takes both at one moment if the client sees the first as a failure |
| SendSystem.StatusAlwaysRefinesLog | src/core/mail_proxy/entities/message_event/table.py:123-160 | in every run in which no row is written back too late the status is the time of the latest sent or error event, or none after a deferral |
| SendSystem.StatusHoldsIff | src/core/mail_proxy/entities/message_event/table.py:123-160 | in a run the status column is right in every state if and only if no resubmission is written back too late |
| SendSystem.ReportedAtLeastOnce | src/core/mail_proxy/reporting/client_reporter.py:214-302 | in every run a marked event was carried by a successful call, and one not carried is still eligible for a report unless a user deleted its message or the message was already gone when it was recorded, such as a late bounce after retention |
| SendSystem.HistoryExact | src/core/mail_proxy/reporting/client_reporter.py:214-302 | an event counts as recorded too late, as delivered, and a message as deleted by users, exactly when that happened |
| SendSystem.OutsideSteps | src/core/mail_proxy/entities/message_event/table.py:162-194 | a notice is logged as it is and a deleted message goes, and nothing else changes in the tables |
| SendSystem.GoneForGood | src/core/mail_proxy/entities/message/table.py:594-626 | a removed message never returns under its key, so events added later are never eligible for a report |
| SendSystem.AcceptancesAccounted | src/core/mail_proxy/smtp/sender.py:563-660 | every acceptance by the mail server is recorded once, in hand, or lost: the client saw a failure, or the task or the process ended first |
| SendSystem.ServerTakesOncePlusLosses | src/core/mail_proxy/smtp/sender.py:563-660 | the server takes a message at most once more than an acceptance of it was lost, by a failure the client saw or a task or process that ended |
| SendSystem.LostAcceptanceIsFetchedAgain | src/core/mail_proxy/smtp/sender.py:563-660 | after a task ended with an acceptance in hand the message can be fetched and sent again |
| SendSystem.SendingMayStopTaken | src/core/mail_proxy/smtp/sender.py:563-660 | any sending task may stop right after the server took its message; its reservation stays |
| SendSystem.TimedOutSendIsRepeated | src/core/mail_proxy/smtp/sender.py:563-616 | a message the server took before a timeout is deferred, fetched at its time and so sent again |
| BatchSelection.GroupByAccount | src/core/mail_proxy/smtp/sender.py:328-333 | groups in order of first appearance, each with its rows in batch order |
| BatchSelection.SelectToSend | src/core/mail_proxy/smtp/sender.py:335-362 | the slices of all accounts, one after the other |
| BatchSelection.SelectedPerAccount | src/core/mail_proxy/smtp/sender.py:328-362 | of each account exactly the first rows up to its batch size are dispatched, in order |
| BatchSelection.SelectedPrefix | src/core/mail_proxy/smtp/sender.py:351-362 | of each account the first batch-size rows are dispatched, all if it has fewer; for a negative size all but that many |
| BatchSelection.FirstAppearance | src/core/mail_proxy/smtp/sender.py:328-333 | accounts stand in the order in which the batch first names them |
| BatchSelection.SelectedByAccount | src/core/mail_proxy/smtp/sender.py:351-362 | and the dispatched rows account after account in that order |
| BatchSelection.SelectedSubCollection | src/core/mail_proxy/smtp/sender.py:328-362 | no row is added or dispatched twice |
| BatchSelection.SelectedMember | src/core/mail_proxy/smtp/sender.py:351-362 | a row is dispatched if and only if it is in its account's slice |
| BatchSelection.NoOvertaking | src/core/mail_proxy/smtp/sender.py:328-362 | a dispatched row never overtakes an earlier one of its account |
| Sender.SendWithLimits | src/core/mail_proxy/smtp/sender.py:460-667 | tables and ledger after a send, for a grant, a refusal, and each SMTP outcome |
| Sender.DispatchMessage | src/core/mail_proxy/smtp/sender.py:397-518 | tables and ledger after a dispatch, including messages that cannot be built or resolved, and those whose building raises through the dispatch |
| Sender.DispatchEffect | src/core/mail_proxy/smtp/sender.py:397-667 | one event, about this message, unless building the message raised, and then none; "sent" if and only if the server took it and its answer arrived, and a send is logged in that case alone; no reservation outlives it |
| Sender.RaisedComesBack | src/core/mail_proxy/smtp/sender.py:397-472 | a message whose building raises is ready again at once, whatever deferral it had, and dispatching it again changes nothing |
| Sender.DispatchAcceptances | src/core/mail_proxy/smtp/sender.py:397-667 | a dispatch is one acceptance by the server if the server took the message, whatever the client saw, and none otherwise |
| Sender.DispatchIsARun | src/core/mail_proxy/smtp/sender.py:397-667 | a dispatch, one that raises included, is a run of the step system with the same tables and ledger |
| Sender.MostUrgentFirst | src/core/mail_proxy/smtp/sender.py:328-362 | of one account, "default" for none, a dispatched message has a smaller priority number than a fetched one left for later, or the same and is older, or as old with a smaller key |
| Reporting.ClientReporter.constructor | src/core/mail_proxy/reporting/client_reporter.py:54-73 | no tenant has been called |
| Reporting.ClientReporter.Wake | src/core/mail_proxy/reporting/client_reporter.py:153-163 | a named tenant becomes due and the target of the next cycle |
| Reporting.ClientReporter.CallTenant | src/core/mail_proxy/reporting/client_reporter.py:250-270 | the call's answer, and the time a successful call leaves |
| Reporting.ClientReporter.CallBusy | src/core/mail_proxy/reporting/client_reporter.py:225-270 | acknowledged are exactly the page's events whose tenant's call succeeded |
| Reporting.ClientReporter.CallIdle | src/core/mail_proxy/reporting/client_reporter.py:272-299 | the idle tenants that are due are called, and only they |
| Reporting.ClientReporter.ProcessCycle | src/core/mail_proxy/reporting/client_reporter.py:193-302 | the whole cycle; when a call raises, no event is marked and nothing is removed, but the sync times of the calls before it stay |
| Reporting.ClientReporter.MarkAndClean | src/core/mail_proxy/reporting/client_reporter.py:296-302 | marks the acknowledged events, then applies retention if it is switched on |
| Reporting.CycleMarksExactlyCarried | src/core/mail_proxy/reporting/client_reporter.py:214-302 | an event is marked if and only if a successful call carried it, and what stays unmarked stays eligible |
| Reporting.CarriedOnFields | src/core/mail_proxy/reporting/client_reporter.py:225-270 | an event of the page is carried if and only if its message's tenant exists, has a URL or there is a global one, and answers |
| Reporting.CycleRemovesExactly | src/core/mail_proxy/reporting/client_reporter.py:296-302 | a cycle removes a message if and only if the retention period is positive and the message is processed, has events, and each was reported longer ago than the period |
| Reporting.BusyCrashOnFields | src/core/mail_proxy/reporting/client_reporter.py:225-270 | the first part of a cycle raises if and only if the call of a tenant with events does |
| Reporting.SilentTenantsHoldThePage | src/core/mail_proxy/reporting/client_reporter.py:210-302 | over any number of cycles in which no tenant with an event on the page has a successful call, the page and the log stay as they are, so no event outside it is carried |
| Reporting.CycleIsARun | src/core/mail_proxy/reporting/client_reporter.py:193-302 | a cycle, with or without retention, is a run of the step system whose call carried what was acknowledged |
| Reporting.DoNotDisturb | src/core/mail_proxy/reporting/client_reporter.py:272-294 | over any number of turns, wake-ups of others included, a tenant that answered with time T, has no events and was not woken is not called until five minutes after T, unless the process restarts |
| Reporting.DoNotDisturbIff | src/core/mail_proxy/reporting/client_reporter.py:153-163 | until then, and while it has not been called, a turn that could call it does so if and only if it was woken since or the process restarted |
| Reporting.CalledOnFields | src/core/mail_proxy/reporting/client_reporter.py:272-290 | which turns call a tenant: for events, one with a URL or under the global one; idle, one active with a URL, not called before, wanted, and last called at least 300 seconds ago |
| Reporting.AnswerSetsSync | src/core/mail_proxy/reporting/client_reporter.py:250-294 | after a call the time stored is the one answered, if given and not zero, else that of the call; without an answer it stays |
| Reporting.AnsweredTimeIsKept | src/core/mail_proxy/reporting/client_reporter.py:250-294 | a tenant that answers a call with time T is not called again before T + 300 while it has no events, is not woken and nothing restarts |
| Reporting.WokenCycle | src/core/mail_proxy/reporting/client_reporter.py:153-163 | a wake-up for one tenant makes it due at once, and the next cycle calls no other without events |
| Reporting.IdlePart | src/core/mail_proxy/reporting/client_reporter.py:214-294 | the sync times a cycle leaves are those of its turns, tenant by tenant |
| Enqueue.Fault | src/core/mail_proxy/proxy.py:732-771 | a payload is accepted if and only if all fields are given, it has a recipient, and the account belongs to the tenant |
| Enqueue.FaultOnFields | src/core/mail_proxy/proxy.py:732-771 | the reason is the first field absent or empty, of id, tenant, account, sender, recipients and subject, or else the unknown account |
| Enqueue.AddMessages | src/core/mail_proxy/proxy.py:550-666 | the whole effect of the command, and of its two refusals, which change nothing |
| Enqueue.SplitItems | src/core/mail_proxy/proxy.py:581-624 | the first loop: refused items answered and stored as errors, the others collected in order |
| Enqueue.StoreError | src/core/mail_proxy/proxy.py:589-608 | a refused item is submitted and, if queued, ends in an error event |
| Enqueue.InsertAccepted | src/core/mail_proxy/proxy.py:626-666 | accepted items are inserted; those whose id was not queued are answered as already sent |
| Enqueue.RefuseLeftover | src/core/mail_proxy/proxy.py:643-647 | accepted items whose id was not queued follow the refusals, each once, in order |
| Enqueue.SkippedIffSettled | src/core/mail_proxy/entities/message/table.py:302-331 | an entry is skipped if and only if it has no tenant or its message was processed |
| Enqueue.RefusalsSettle | src/core/mail_proxy/proxy.py:586-608 | a message becomes processed by the refused part of a batch if and only if a refused item names it and the clock is not at zero, so a faulty resubmission takes a pending message out of the queue |
| Enqueue.SpentIsTooLate | src/core/mail_proxy/proxy.py:581-647 | an accepted item comes too late if and only if its message was processed before the call or a refused item of the same batch names it |
| Enqueue.EnqueueConserves | src/core/mail_proxy/proxy.py:581-666 | with no other steps in between, queued plus refused never exceed the batch, and equal it if and only if no two accepted items of different tenants share an id of which one is too late and the other not, told from the table before the call |
| Enqueue.OneTenantConserves | src/core/mail_proxy/proxy.py:581-666 | for items of one tenant queued plus refused equal the batch length |
| Enqueue.TwoTenantsLoseAnItem | src/core/mail_proxy/proxy.py:643-647 | with two tenants an item can be missing from the answer |
| Enqueue.InterleavedConserves | src/core/mail_proxy/proxy.py:626-666 | whatever other tasks do between the turns, nothing is answered twice, and nothing is missing if and only if no two accepted items share an id of which one is too late at its turn and the other not |
| Enqueue.SendBetweenTurnsLosesAnItem | src/core/mail_proxy/proxy.py:626-666 | a send between two turns makes the second item of one tenant's repeated id vanish from the answer |
| Enqueue.FailureIff | src/core/mail_proxy/proxy.py:656-660 | `ok` is false if and only if something was refused and every accepted item was processed before the call or named by a refused one |
| Enqueue.AcceptedWaits | src/core/mail_proxy/proxy.py:629-647 | an accepted item whose message was not processed waits in the queue afterwards |
| Enqueue.AcceptedRow | src/core/mail_proxy/proxy.py:626-647 | an accepted item on time, and named by no later accepted item, has a pending row with its id, tenant, account, priority, payload, batch code and deferral |
| Enqueue.RefusedRow | src/core/mail_proxy/proxy.py:589-608 | a refused item that names a message not processed before leaves its fields, without deferral, as an error at this moment, and that event |
| Enqueue.RefusalsInOrder | src/core/mail_proxy/proxy.py:581-588 | every refused item is answered in order, with its id and reason |
| Enqueue.LeftoverExact | src/core/mail_proxy/proxy.py:643-647 | the items answered as already sent are exactly the accepted ones whose id was not queued |
| Enqueue.EnqueueIsARun | src/core/mail_proxy/proxy.py:550-666 | the command is a run of submissions and rejections in the step system |
| MemoryCache.MemoryCache.constructor | src/core/mail_proxy/smtp/cache.py:50-54 | a new cache is empty |
| MemoryCache.MemoryCache.Get | src/core/mail_proxy/smtp/cache.py:56-67 | the answer; a hit moves to the end, an expired entry goes; the byte counter stays exact |
| MemoryCache.MemoryCache.Set | src/core/mail_proxy/smtp/cache.py:69-83 | replaces, evicts from the front while short of room, appends; the byte counter stays exact and within the budget |
| MemoryCache.MemoryCache.MakeRoom | src/core/mail_proxy/smtp/cache.py:78-80 | the eviction loop ends with room for the new content or an empty cache |
| MemoryCache.MemoryCache.Remove | src/core/mail_proxy/smtp/cache.py:85-88 | exactly the key's entry goes |
| MemoryCache.MemoryCache.Clear | src/core/mail_proxy/smtp/cache.py:90-92 | empty |
| MemoryCache.MemoryCache.CleanupExpired | src/core/mail_proxy/smtp/cache.py:94-103 | exactly the expired entries go, and their number is returned |
| MemoryCache.EvictionExact | src/core/mail_proxy/smtp/cache.py:78-80 | an entry survives if and only if it, everything used more recently and the new content fit together: the shortest least recent prefix is removed |
| MemoryCache.EntrySurvivesIff | src/core/mail_proxy/smtp/cache.py:56-103 | an entry leaves by a read of its key or a cleanup if and only if it is older than the ttl, and by a set of another key if and only if it and everything used more recently leave too little room |
| MemoryCache.HitIsMostRecent | src/core/mail_proxy/smtp/cache.py:56-67 | a hit makes its entry the most recent and keeps the order of the others |
| MemoryCache.EveryRunSound | src/core/mail_proxy/smtp/cache.py:56-103 | after any run the total is within the budget, entries stand in the order of their last use, and each is the last one set under its key |
| MemoryCache.CacheRefinesMap | src/core/mail_proxy/smtp/cache.py:56-83 | `get` gives nothing, or the last content set under the key that fits the budget, never one set longer ago than the time to live |
| MemoryCache.SetThenGetIff | src/core/mail_proxy/smtp/cache.py:56-83 | after a set of a key not readable before, it is readable if and only if the content fits the budget and has not aged out |
| MemoryCache.OversizedSetLeavesOld | src/core/mail_proxy/smtp/cache.py:72-73 | a content larger than the budget changes nothing, so the older one stays readable |
| DiskCache.DiskCache.constructor | src/core/mail_proxy/smtp/cache.py:126-135 | the cache starts with the files it finds |
| DiskCache.DiskCache.Get | src/core/mail_proxy/smtp/cache.py:144-157 | the answer for the file the key names, if any, and that file removed when expired, with refusals of the file system; a path that leads out of the directory gets what is there |
| DiskCache.DiskCache.Set | src/core/mail_proxy/smtp/cache.py:159-170 | makes room, then writes, possibly only the first bytes or none, and says whether the write raised; an oversized content changes nothing |
| DiskCache.DiskCache.EnsureSpace | src/core/mail_proxy/smtp/cache.py:182-197 | deletes files oldest first, past those that cannot be deleted, until there is room |
| DiskCache.DiskCache.CleanupExpired | src/core/mail_proxy/smtp/cache.py:223-248 | exactly the expired files that can be deleted go |
| DiskCache.EvictionIsReclaim | src/core/mail_proxy/smtp/cache.py:182-197 | deleting one by one leaves the same files as removing the computed set |
| DiskCache.ReclaimExact | src/core/mail_proxy/smtp/cache.py:190-197 | a file goes if and only if it can be deleted and deleting all older deletable ones leaves too little room |
| DiskCache.OldestGoFirst | src/core/mail_proxy/smtp/cache.py:182-221 | no file goes while an older deletable one stays |
| DiskCache.RoomIff | src/core/mail_proxy/smtp/cache.py:182-197 | there is room afterwards if and only if the undeletable files leave enough |
| DiskCache.SetRestoresBudget | src/core/mail_proxy/smtp/cache.py:159-197 | with nothing undeletable, every accepted set leaves the directory within the budget, whatever was there and however far the write got, and what was written readable |
| DiskCache.GetOnFiles | src/core/mail_proxy/smtp/cache.py:144-157 | a read gives the content of the key's file unless it is older than the ttl or unreadable, and deletes it if and only if it is older and can be deleted |
| DiskCache.NoFileNoAnswer | src/core/mail_proxy/smtp/cache.py:144-157 | without a file there is no answer and no change |
| DiskCache.CleanupOnFiles | src/core/mail_proxy/smtp/cache.py:223-248 | cleanup deletes exactly the files older than the ttl that can be deleted |
| DiskCache.SetOnFiles | src/core/mail_proxy/smtp/cache.py:159-170 | a write leaves all bytes or the first of them under the key and the present time; every other file is there if the eviction left it |
| DiskCache.RaisesUnlessStored | src/core/mail_proxy/smtp/cache.py:159-170 | a write raises if and only if the whole content is not there afterwards |
| CachePath.PlainIff | src/core/mail_proxy/smtp/cache.py:140-142 | a key names the file stored under it if and only if it is a plain name: not empty, no slash, not ".", not beginning with ".."; so different plain keys name different files |
| CachePath.BeyondIff | src/core/mail_proxy/smtp/cache.py:140-142 | a key can lead out of the directory if and only if it begins with a slash or has a component ".." |
| CachePath.InsideIsPlain | src/core/mail_proxy/smtp/cache.py:140-142 | the file that any key names inside the directory is the one of a plain key |
| CachePath.AliasNamesFile | src/core/mail_proxy/smtp/cache.py:140-142 | every file of the cache has a second key that names it |
| TieredCache.TieredCache.Get | src/core/mail_proxy/smtp/cache.py:302-314 | memory first, then the file the key names, with promotion of small contents under the key given; both tiers afterwards |
| TieredCache.TieredCache.Set | src/core/mail_proxy/smtp/cache.py:316-320 | small contents go to memory, others to disk if there is one; raises if and only if that write does |
| TieredCache.Fetch | src/core/mail_proxy/smtp/attachments.py:262-292 | looks up the given key, else fetches and stores under the digest of the bytes; raises when the store does |
| TieredCache.HitsAreGenuine | src/core/mail_proxy/smtp/attachments.py:275-292 | after any run of fetches, torn and finished writes, cleanups and clears, and unless a write to the file the key names was torn, a hit has its key as digest if and only if the key is a plain name; any key that names a file of the cache gets the content stored under the file's own key |
| TieredCache.TornKeysIff | src/core/mail_proxy/smtp/cache.py:159-170 | a key is torn if and only if some write of the run of a content under it, for the disk, ended before its last byte |
| TieredCache.AliasHitIsNotGenuine | src/core/mail_proxy/smtp/cache.py:140-157 | every content that goes to disk also answers for a second key, which is not its digest |
| TieredCache.TornReadOutlivesWrite | src/core/mail_proxy/smtp/cache.py:144-170 | a content read while its file holds only a part answers with that part, and goes on to do so after the write has finished if and only if the part was below the threshold |
| TieredCache.FetchIsTransparentIff | src/core/mail_proxy/smtp/attachments.py:275-292 | if digests do not collide, the key leads nowhere outside the directory and no write to the file it names was torn, a fetch returns what the back end holds if and only if nothing is found and storing does not raise, or the file named is that of its digest |
| TieredCache.FetchRaisesIff | src/core/mail_proxy/smtp/attachments.py:275-292 | a fetch raises if and only if it finds nothing, the content goes to disk, and its file cannot be opened or written to the end |
| TieredCache.FetchOnTiers | src/core/mail_proxy/smtp/attachments.py:275-292 | after a hit the tiers are as the lookup left them; after a miss a small content is also the most recent in memory, under its digest |
| TieredCache.CleanupOnTiers | src/core/mail_proxy/smtp/cache.py:322-340 | cleanup and clearing leave exactly what is younger than the ttl of its tier, or nothing, and the files that cannot be deleted |
| TieredCache.KeyWinsOverPath | src/core/mail_proxy/smtp/attachments.py:273-280 | a key of other, cached bytes is answered with those bytes |
| TieredCache.TiersStayApart | src/core/mail_proxy/smtp/cache.py:302-320 | tiers split by the threshold stay so for ever, except for what torn writes left on disk |
| TieredCache.GetApart | src/core/mail_proxy/smtp/cache.py:302-314 | with tiers split by the threshold no read promotes anything but what a torn write left or lies outside the directory |
| BatchSuspension.TenantsTable.SuspendBatch | src/core/mail_proxy/entities/tenant/table.py:207-245 | the new column of the tenant and of no other; false for an unknown tenant |
| BatchSuspension.TenantsTable.ActivateBatch | src/core/mail_proxy/entities/tenant/table.py:247-289 | the new column; false for an unknown tenant or a single batch out of "*" |
| BatchSuspension.TenantsTable.GetSuspendedBatches | src/core/mail_proxy/entities/tenant/table.py:291-320 | the listed codes, or "*" |
| BatchSuspension.ListedIff | src/core/mail_proxy/entities/tenant/table.py:291-320 | "*" alone for the column "*", else the nonempty comma-separated parts |
| BatchSuspension.ActivateRefusedIff | src/core/mail_proxy/entities/tenant/table.py:274-289 | activating is refused if and only if a single batch is to be taken out of "*", and then changes nothing |
| BatchSuspension.ReadersAgreeIff | src/core/mail_proxy/entities/tenant/table.py:159-193 | the query and `is_batch_suspended` agree on a code for every column if and only if the code is nonempty and free of commas, wildcards, escapes where backslash escapes, and letters where LIKE ignores case |
| BatchSuspension.QueryHoldsBackSuspended | src/core/mail_proxy/entities/message/table.py:404-418 | without escapes the query holds back whatever the code calls suspended, for all columns and codes |
| BatchSuspension.EscapedCodeLetThrough | src/core/mail_proxy/entities/message/table.py:404-418 | where backslash escapes, the query lets through a suspended code that contains one, if it has no comma and no wildcard |
| BatchSuspension.SqlAgreesWithCodeIff | src/core/mail_proxy/entities/message/table.py:404-418 | for codes free of commas and of what LIKE reads specially the query filter and `is_batch_suspended` agree if and only if not both column and code are empty |
| BatchSuspension.FilterIsMembership | src/core/mail_proxy/entities/message/table.py:404-418 | for a code that matches one string only, the LIKE test holds if and only if that string is one of the comma-separated parts |
| BatchSuspension.CommaCodeSkippedByQueryOnly | src/core/mail_proxy/entities/tenant/table.py:159-193 | a code with a comma is suspended for the query and not for the code |
| BatchSuspension.WildcardAndCaseSkippedByQueryOnly | src/core/mail_proxy/entities/message/table.py:404-418 | so is a wildcard code, and one that differs in case where LIKE ignores case |
| BatchSuspension.JoinedCodes | src/core/mail_proxy/entities/tenant/table.py:240-245 | splitting what sorting and joining wrote gives back the set |
| BatchSuspension.SuspendInsertsIff | src/core/mail_proxy/entities/tenant/table.py:230-245 | suspending a code inserts it into the set if and only if all is suspended, or it is nonempty, comma-free and does not leave "*" alone |
| BatchSuspension.ActivateRemovesIff | src/core/mail_proxy/entities/tenant/table.py:274-289 | activating a code removes it if and only if all is suspended (and the call refused) or "*" is not all that stays |
| BatchSuspension.ActivatingCanSuspendEverything | src/core/mail_proxy/entities/tenant/table.py:274-289 | after suspending "a" and "*" singly, activating "a" suspends everything |
| BatchSuspension.ColumnSimulatesSet | src/core/mail_proxy/entities/tenant/table.py:207-289 | over any run of ordinary operations the string means what a set with a top element means |
| BatchSuspension.AllReadersAgree | src/core/mail_proxy/entities/message/table.py:404-418 | after any such run the code and the set view agree on every message, and the query with them for every code free of commas and of what LIKE reads specially |
| BatchSuspension.WrittenIff | src/core/mail_proxy/entities/tenant/table.py:207-289 | exactly the columns that runs of ordinary operations write: NULL, "*", and ascending comma-joined lists of ordinary codes |
| BatchSuspension.QueryAgreesOverRunsIff | src/core/mail_proxy/entities/message/table.py:404-418 | over all such runs the query reads a code as the set does if and only if it is literal, when it has no comma, or not itself such a list, when it is literal and has one |
| Text.SplitJoin | src/core/mail_proxy/entities/tenant/table.py:236-245 | splitting undoes joining for parts free of the separator |
| Text.JoinSplit | src/core/mail_proxy/entities/tenant/table.py:236-245 | joining undoes splitting |
| Text.InSplitIffContained | src/core/mail_proxy/entities/message/table.py:404-418 | a part is in the list if and only if the fenced part occurs in the fenced list |
| Text.LikeContains | src/core/mail_proxy/entities/message/table.py:404-418 | between two percent signs a pattern that matches one string only matches exactly the strings that contain it |
| Text.FencedStretch | src/core/mail_proxy/entities/message/table.py:404-418 | a fenced text occurs in a fenced list only as a stretch of whole parts |
| Text.LikeInstance | src/core/mail_proxy/entities/message/table.py:404-418 | every pattern matches the string that puts a letter for each wildcard and the other case for each letter where case is ignored |
| Text.SortedSpec | src/core/mail_proxy/entities/tenant/table.py:243-245 | sorting lists exactly the set, ascending |
| Text.LessIff | src/core/mail_proxy/entities/tenant/table.py:243-245 | the order of strings: the smaller character at the first difference, or a proper prefix |
| Text.SameCharIff | src/core/mail_proxy/entities/message/table.py:404-418 | characters are the same if equal or, where case is ignored, an ASCII letter and its other case |
| ImapCursor.FetchSinceUid | src/enterprise/mail_proxy/imap/client.py:87-134 | the listed messages beyond the cursor that can be fetched, in listed order |
| ImapCursor.BounceReceiver.constructor | src/enterprise/mail_proxy/bounce/receiver.py:62-76 | the cursor starts at zero with no known UIDVALIDITY |
| ImapCursor.BounceReceiver.ProcessBounces | src/enterprise/mail_proxy/bounce/receiver.py:129-199 | cursor and recorded bounces after a poll, with the reset on a changed UIDVALIDITY |
| ImapCursor.BounceReceiver.Process | src/enterprise/mail_proxy/bounce/receiver.py:165-193 | the processing loop, ended early by a failing event |
| ImapCursor.PollSpec | src/enterprise/mail_proxy/bounce/receiver.py:146-193 | a poll handles exactly the fetchable messages between the old cursor and the new, ascending |
| ImapCursor.PollRecords | src/enterprise/mail_proxy/bounce/receiver.py:146-193 | a poll records, ascending, exactly the fetchable bounces beyond the cursor up to the first whose event cannot be stored |
| ImapCursor.BouncedExact | src/enterprise/mail_proxy/bounce/receiver.py:165-193 | of the messages handled, exactly the bounces are recorded, in order |
| ImapCursor.StepSound | src/enterprise/mail_proxy/bounce/receiver.py:129-199 | every delivery, expunge, recreation, poll and restart keeps the history ascending and every message behind the cursor decided |
| ImapCursor.NoneTwice | src/enterprise/mail_proxy/bounce/receiver.py:146-193 | in no lifetime of the process is a message dealt with twice, and in each the order is strictly ascending |
| ImapCursor.OncePerLifetime | src/enterprise/mail_proxy/bounce/receiver.py:62-76 | a message is dealt with at most once more than the process was restarted |
| ImapCursor.RestartDealsAgain | src/enterprise/mail_proxy/bounce/receiver.py:62-76 | after a restart a clean poll deals with every message of the mailbox once more, and with no other |
| ImapCursor.EveryMessageAccounted | src/enterprise/mail_proxy/bounce/receiver.py:146-193 | a message is ahead of the cursor if and only if it is neither dealt with nor passed over, and never both of these |
| ImapCursor.PassedOverIsLost | src/enterprise/mail_proxy/imap/client.py:121-134 | a message passed over because its fetch failed is dealt with in no later run until the process restarts |
| ImapCursor.ExactlyOnce | src/enterprise/mail_proxy/bounce/receiver.py:146-193 | if no fetch failed since the process started, a clean poll leaves every message dealt with at exactly one place of this lifetime's history, whatever polls were cut short before |
| ImapCursor.DeliveredIsHandled | src/enterprise/mail_proxy/bounce/receiver.py:146-193 | a message delivered after any run is dealt with by the next clean poll |
| ImapCursor.RecreatedIsReadAnew | src/enterprise/mail_proxy/bounce/receiver.py:129-145 | a mailbox recreated with a greater UIDVALIDITY is read from its first message on |
| ImapCursor.FailedFetchLosesMail | src/enterprise/mail_proxy/imap/client.py:121-134 | a concrete poll whose failed fetch loses a message |
| DownloadToken.ParsePrinted | src/enterprise/mail_proxy/attachments/large_file_storage.py:222-246 | `int(str(n)) == n` for every integer |
| DownloadToken.PaddedParses | src/enterprise/mail_proxy/attachments/large_file_storage.py:241-245 | `int` ignores ASCII white space around a number |
| DownloadToken.SignsAndUnderscores | src/enterprise/mail_proxy/attachments/large_file_storage.py:241-245 | `int` takes one plus sign and single underscores between digits, and no double ones |
| DownloadToken.SplitThree | src/enterprise/mail_proxy/attachments/large_file_storage.py:241-245 | splitting from the right gives back three joined parts when the last two have no dash |
| DownloadToken.SplitJoins | src/enterprise/mail_proxy/attachments/large_file_storage.py:241-245 | three parts, joined, are the token, and the last two have no dash |
| DownloadToken.VerifyGeneratedIff | src/enterprise/mail_proxy/attachments/large_file_storage.py:208-267 | verifying a generated token gives back its file id if and only if the expiry, the whole second of issue plus the lifetime, is not negative and not past |
| DownloadToken.AcceptedIff | src/enterprise/mail_proxy/attachments/large_file_storage.py:230-267 | a token is accepted if and only if it is file id, an unexpired number and their signature, joined by dashes |
| DownloadToken.RaisesIff | src/enterprise/mail_proxy/attachments/large_file_storage.py:230-267 | verification raises if and only if the token has the right form and is not expired but its signature is not ASCII |
| DownloadToken.SameMessageIff | src/enterprise/mail_proxy/attachments/large_file_storage.py:222-226 | two uploads are signed alike if and only if the expiries and the colon-joined file id and filename agree; for file ids without colons, if and only if all three agree |
| DownloadToken.ShiftedPartsShareSignature | src/enterprise/mail_proxy/attachments/large_file_storage.py:223-226 | with colons in file ids different uploads share a signature |
| DownloadToken.VerifyUnderNameIff | src/enterprise/mail_proxy/attachments/large_file_storage.py:208-267 | a generated token is accepted under another filename if and only if both are signed alike and the expiry is neither negative nor past; if no two messages share a signature, if and only if the filenames are the same |

## Left out

- SMTP, IMAP and HTTP traffic, MIME building and parsing, retries at connection level, encryption, HMAC and MD5: outside answers or arbitrary functions.
- Command line, endpoints, forms, metrics, logging, configuration, schema migration, SQL text: they would add only easy members.
- Pool: waiting, timeouts and `notify`, where a wake-up can be missed; `close_all`, which forgets checked-out connections; `stats`; cancellation during a connect.
- SmtpPool.SMTPPool.AcquirePass: the liveness probe runs inside the section and its answer is a parameter, so a connection that dies after the probe is not modelled.
- RateLimiting.RateLimitNeverExceeded: runs contain no `purge_for_account` or `clear`, which forget sends on purpose.
- Rate limiter metrics, and string or real limits, which the account table does not hold.
- Retry counting and delays: whether a failed send is retried, and after how long, is an outside answer, because the stored payload loses the count.
- MailStore: the columns `account_pk`, `is_pec` and `updated_at`, event descriptions, and metadata other than the deferral time.
- MailStore.MailStore.RemoveFullyReportedRows: the variant for one tenant is covered by the `scope` of the function only.
- Table operations that interleave statement by statement: assumed atomic, except for the read and write-back of a resubmission.
- SendSystem.NoMessageSentTwice: a write-back of a row after a send of its message was recorded is not a step of the runs; `MailStore.SplitRecordForgetsSend` shows that it breaks the property.
- Sender.DispatchEffect: exceptions of the database and of the metrics, which end a dispatch at any point; in `SendSystem` a task may end anywhere.
- Reporting.DoNotDisturbIff: a wake-up during the call to the same tenant, whose answer overwrites it.
- CachePath.PlainIff: names longer than the file system allows, zero characters, and file systems that ignore case; of paths that step up or are absolute only that they can lead anywhere.
- DiskCache.DiskCache.Set: keys that are not plain names, which no caller stores.
- BatchSuspension.QueryAgreesOverRunsIff: codes with both a comma and a wildcard or other special character; whether some list that a run can write matches them depends on what the wildcards may stand for (`WrittenIff` says which lists there are).
- Text: ignoring case means ignoring it in ASCII letters, as SQLite does.
- Several dispatcher processes on one database.
- The semaphores that limit how many sends overlap: any number may.
- "No regular message while an immediate one is pending": not claimed, since the limit per account can leave immediate ones behind.
- Sender.DispatchMessage: an account is resolved by an outside answer, and results published to subscribers are not modelled.
- Reporting: the branch for events without tenant, which no message has, the callable that can replace HTTP, and the counts of newly queued messages.
- MailProxy deletion by message id, which calls the table with an argument it does not take.
- Enqueue: priority normalisation (priorities arrive normalised), notices published for refused items, and ids that are not strings.
- Memory and disk cache: sizes in megabytes rounded to bytes, directory creation and removal, `clear` as a method of the tiers (it is a step of their runs), and operations that overlap at their awaits other than a read during a write.
- TieredCache.HitsAreGenuine: a file is read in one go, so a read that overlaps the write of its bytes sees the part written so far.
- ImapCursor: connecting and selecting the folder, which change nothing when they fail, and servers that omit UIDVALIDITY or list UIDs out of order.
- DownloadToken.ParsePrinted: digits and white space outside ASCII, and Python's limit on the length of numbers read from strings.
- DownloadToken.VerifyGeneratedIff: native signing by cloud file systems, and file ids that cannot be encoded.
