# Events service: broadcast queue, feed version and mutation handlers in Dafny

This project models the core of a Go events service. The service stores
announcements ("events"). It fans them out to three delivery channels: FCM
push, SES email and a Teams stub. It serves a paginated feed guarded by an
`ETag`. The model has four parts, and all of them work on one abstract
database `Model.State`:

- **Broadcast job queue and worker.**
  - `JobQueue` covers `EnqueueBroadcast`, the `FetchPendingBroadcasts` claim and `UpdateBroadcastJobStatus`. The claim is taken as one atomic step.
  - `Worker` covers `processJob`, its retry rule and `runOnce`. The channel senders are an oracle that says, per job, how each provider call turns out.
- **Feed version and conditional read.**
  - `Repository` covers `GetFeedVersion`, `IncrementFeedVersion` and `GetEventFeed`.
  - `FeedHandler` covers `ListEvents`. It normalises the `If-None-Match` token, compares it with the decimal version, and answers 304 or one page with a quoted `ETag`.
- **Mutation handlers.** `Handlers` covers `ManualBroadcast`, `ModerateEvent`, `CreateEvent` and `UpdateEvent`. Each is a transition of the database together with the HTTP reply.
- **Tag suggestion.** `TagSuggest` is the keyword classifier `SuggestTags` with `containsAny`.

`Base` holds the shared vocabulary:

- `Option` and `Result`;
- `Uuid`;
- the status codes;
- `Parsers`, which holds `uuid.Parse` and RFC 3339 `time.Parse` as function parameters.

`Text` holds the pieces of Go's `strings` and `strconv` packages the core uses, each proved against a specification.

Database state:

- Jobs and events are sequences in insertion order.
- A job's id is its position plus one, which stands for the serial key (see Left out for the gaps a real sequence can have).
- A clock in the state stamps `created_at` and advances on every insert, so creation times are distinct (an assumption, see Left out).
- The invariant `Model.Valid` says that ids are serial, creation times increase, and event ids are unique. Every operation preserves it.

Failures:

- Every repository call that can fail takes a `Fault` (`None` = succeeds, `Some(msg)` = fails with `msg`).
- A handler's reply therefore depends on the faults it is given, exactly as the Go code's branches do.

Three behaviours of the code are easy to miss, and the model follows them:

- The worker's channel names are `fcm`, `email` and `teams` (`internal/events/workers/broadcast_worker.go:98-108`).
- Only manual broadcast and moderation bump the feed version. Creation and update do not.
- The write errors after a broadcast's lookup are dropped, not reported (`internal/events/handlers/broadcast_event.go:43-54`).

One behaviour is a defect: an unknown channel. The default branch of the worker's switch records "unknown channel" as the last error, but that error is then discarded (`internal/events/workers/broadcast_worker.go:110-114`). It is modelled both ways (see Findings).

Two GORM behaviours are modelled explicitly:

- `Updates` with a struct skips zero values. An update that sends an empty title, summary or body leaves that column as it was.
- An update always deletes the event's tag rows. An update request without tags therefore clears them.

## Model

| member | source | states |
|---|---|---|
| Text.Contains | internal/events/service/tag_suggest.go:37 | true exactly when the word occurs in the text at some position; the empty word occurs in every text |
| Text.ToLower | internal/events/service/tag_suggest.go:6 | same length, every ASCII capital replaced by its lower-case letter and every other character kept |
| Text.LowerConcat | internal/events/service/tag_suggest.go:6 | lower-casing the concatenated text is lower-casing each part, so the joined title, summary and body are folded piecewise |
| Text.TrimLeft | internal/events/handlers/feed.go:18 | removes exactly the longest prefix of cut-set characters: what is removed is all in the set and what remains does not start with one |
| Text.TrimRight | internal/events/handlers/feed.go:18 | removes exactly the longest suffix of cut-set characters |
| Text.TrimUntouched | internal/events/handlers/feed.go:18 | a string neither of whose ends is in the cut set is returned unchanged by trimming |
| Text.Decimal | internal/events/handlers/feed.go:27 | the rendering of an integer is non-empty, starts with a digit or `-` and ends with a digit |
| Text.DecimalCanonical | internal/events/handlers/feed.go:27 | `strconv.Itoa`'s canonical form: `-` first exactly for a negative integer, no leading zero, never `-0` |
| Text.DecimalRoundTrip | internal/events/handlers/feed.go:27 | parsing the decimal rendering gives back the integer |
| Text.DecimalInjective | internal/events/handlers/feed.go:27 | different versions never render to the same tag |
| Model.TagsOf | internal/events/handlers/feed.go:71-74 | an event's tags are exactly the tags of its rows, read in insertion order (an assumption, see Left out) |
| TagSuggest.RulesTagged | internal/events/service/tag_suggest.go:10-30 | the seven rules carry the seven tags in the fixed order maintenance, policy, meeting, deadline, urgent, holiday, system |
| TagSuggest.ContainsAny | internal/events/service/tag_suggest.go:35-42 | true iff some word of the list is a substring of the text; false for an empty list |
| TagSuggest.SuggestFrom | internal/events/service/tag_suggest.go:10-30 | the tags of the rules from `k` on: ranks in range and strictly increasing, and rule `m`'s tag present iff rule `m` fires |
| TagSuggest.SuggestTags | internal/events/service/tag_suggest.go:5-33 | only the seven known tags, in rule order, no duplicates, at most seven; a tag is returned iff one of its keywords is a substring of the lower-cased `title + " " + summary + " " + body` |
| TagSuggest.RanksBoundLength | internal/events/service/tag_suggest.go:10-30 | a strictly rank-increasing list of known tags has at most seven elements |
| TagSuggest.CaseInsensitive | internal/events/service/tag_suggest.go:6 | inputs that agree after ASCII lower-casing get the same tags |
| TagSuggest.EmptyInputNoTags | internal/events/service/tag_suggest.go:7-32 | empty title, summary and body give no tags |
| TagSuggest.NothingFires | internal/events/service/tag_suggest.go:7-32 | when no rule fires the list stays empty |
| TagSuggest.SubstringNotWord | internal/events/service/tag_suggest.go:16-19 | matching is by substring: "residue" is tagged deadline through "due" and "Asynchronous" is tagged meeting through "sync" |
| Repository.GetFeedVersion | internal/events/repository/repository.go:165-175 | succeeds iff the read does not fail and row 1 exists, and then returns its version |
| Repository.IncrementFeedVersion | internal/events/repository/repository.go:177-183 | raises the row-1 version by exactly one and changes nothing else; a missing row is not an error; a failed statement changes nothing |
| Repository.IncrementOnce | internal/events/repository/repository.go:177-183 | the successful increment as one equation over the whole database |
| Repository.IncrementsAdd | internal/events/repository/repository.go:177-183 | `n` successful increments from version `v` give `v + n`: no update is lost |
| Repository.CreatePublishAudit | internal/events/repository/repository.go:245-255 | appends exactly the given audit row, or changes nothing when the insert fails |
| Repository.FindEvent | internal/events/repository/repository.go:53-58 | the position of an event with the id, or none when no event has it |
| Repository.GetEvent | internal/events/repository/repository.go:53-65 | a found event is in the table with the requested id; an error means a storage fault or no such event |
| Repository.CreateEvent | internal/events/repository/repository.go:33-51 | succeeds iff there is no fault and the id is new; on success appends the event stamped with the current time and its tag rows; on failure rolls everything back |
| Repository.Patched | internal/events/repository/repository.go:103-114 | every non-empty field of the patch overwrites the event's column; empty ones leave it; id, creator, status and creation time are kept |
| Repository.WithoutEvent | internal/events/repository/repository.go:116-120 | keeps exactly the rows of other events; the deleted event has no tags left and every other event's tags are unchanged |
| Repository.UpdateEvent | internal/events/repository/repository.go:99-131 | patches only the event with the id, replaces its tag rows by the given ones, and changes nothing else; a fault rolls back |
| Repository.RowsFor | internal/events/handlers/create_event.go:63-69 | one row per tag, in order, each linked to the event |
| Repository.ReplaceTags | internal/events/repository/repository.go:116-127 | deleting an event's rows and inserting new ones gives it exactly the new tags and leaves every other event's tags alone |
| Repository.UpdateReplacesTags | internal/events/repository/repository.go:116-127 | after an update the event's tags are exactly the inserted ones, in insertion order (an assumption, see Left out), and no other event's tags change |
| Repository.OwnRows | internal/events/handlers/create_event.go:63-69 | the rows built for an event carry exactly its tag list |
| Repository.ModerateEvent | internal/events/repository/repository.go:133-163 | sets the status of the event with the id and appends one "moderation" audit row with moderator and notes; a fault rolls both back |
| Repository.Matching | internal/events/repository/repository.go:77-79 | keeps exactly the events created strictly after `since`, or all of them when there is no filter |
| Repository.Offset | internal/events/repository/repository.go:71 | the offset of a page of at least 1 is never negative |
| Repository.Window | internal/events/repository/repository.go:92 | `OFFSET o LIMIT n`: at most `n` elements, element `k` is element `o + k` of the input |
| Repository.GetEventFeed | internal/events/repository/repository.go:67-97 | succeeds iff the queries do not fail; `total` counts every matching event before paging; the page has `min(size, total - offset)` items, item `k` being the `(offset + k)`-th newest matching event |
| Repository.AppendAscending | internal/events/repository/repository.go:75 | appending events younger than all earlier ones keeps creation order |
| Repository.MatchingSorted | internal/events/repository/repository.go:75-79 | filtering keeps the table's creation order |
| Repository.FeedNewestFirst | internal/events/repository/repository.go:73-92 | on a consistent table a page holds matching events only, strictly newest first |
| Repository.FeedCovers | internal/events/repository/repository.go:71-92 | paging covers the feed: the matching event at position `q * size + r` newest first is item `r` of page `q + 1` |
| JobQueue.Enqueue | internal/events/repository/repository.go:186-195 | appends exactly one job with the given event, channel and payload, status pending, zero attempts, no error; nothing else changes; a fault changes nothing |
| JobQueue.Selected | internal/events/repository/repository.go:212-217 | selects as many positions as the limit allows among the pending rows |
| JobQueue.SelectedOrdered | internal/events/repository/repository.go:213-216 | the selected positions are pending rows in increasing (oldest first) order |
| JobQueue.SelectedComplete | internal/events/repository/repository.go:213-217 | a pending row left out of the selection comes after every selected one, and the limit was reached |
| JobQueue.MarkProcessingAt | internal/events/repository/repository.go:210-212 | exactly the selected rows get status processing, with every other column kept |
| JobQueue.Claim | internal/events/repository/repository.go:198-231 | fails iff the statement fails or the limit is negative, and then changes nothing; otherwise returns at most `limit` jobs and changes only the job table |
| JobQueue.ClaimEffect | internal/events/repository/repository.go:209-220 | every row is unchanged or was pending and is now a returned processing row; every returned job is processing and in the table |
| JobQueue.ClaimedAt | internal/events/repository/repository.go:209-220 | the `k`-th returned job is the `k`-th selected pending row, marked processing, and equals the updated row |
| JobQueue.UnclaimedAt | internal/events/repository/repository.go:212-218 | a row still pending after the claim was pending before and was not selected |
| JobQueue.ClaimedRows | internal/events/repository/repository.go:209-220 | on a consistent table every returned job was pending, is read back as its updated row, and the table stays consistent |
| JobQueue.ClaimOldestFirst | internal/events/repository/repository.go:213-217 | the claim returns `min(limit, pending)` jobs, oldest first, each older than every job still pending |
| JobQueue.ClaimsDisjoint | internal/events/repository/repository.go:210-218 | two successive claims never return the same job |
| JobQueue.UpdateJobStatus | internal/events/repository/repository.go:234-243 | the status update changes only the job table and keeps its length |
| JobQueue.UpdateJobStatusRows | internal/events/repository/repository.go:234-243 | overwrites status, attempts and last error of exactly the rows with the id and leaves every other row and column alone |
| JobQueue.UpdateIdempotent | internal/events/repository/repository.go:234-243 | repeating the same update leaves the same state |
| JobQueue.UpdatePreservesValid | internal/events/repository/repository.go:234-243 | a status update keeps the database consistent |
| Worker.SendEmailAllStaff | internal/events/workers/broadcast_worker.go:138-210 | fails only when the SES client, the event or the staff list cannot be loaded, each with its own message prefix; no recipients and per-recipient send errors are success |
| Worker.DispatchAsWritten | internal/events/workers/broadcast_worker.go:98-114 | fcm and email report their sender's error, teams always succeeds, and an unknown channel counts as delivered |
| Worker.DispatchCorrected | internal/events/workers/broadcast_worker.go:110-114 | known channels dispatch as written; an unknown channel is a configuration error |
| Worker.Decide | internal/events/workers/broadcast_worker.go:93-131 | attempts grow by one; sent iff delivered, with no error; pending iff a send error before the third attempt; failed on a send error at the third attempt or a configuration error; the error text is kept; exactly the terminal outcomes carry the sent/delivered or failed/error audit entry |
| Worker.ProcessJob | internal/events/workers/broadcast_worker.go:89-132 | changes only jobs and the audit log, which grows by the decision's entry unless that write fails |
| Worker.ProcessJobRows | internal/events/workers/broadcast_worker.go:116-131 | the job's row gets the decided status, attempts and error unless the status write fails; other rows are untouched |
| Worker.BatchAudit | internal/events/workers/broadcast_worker.go:84-86 | a batch appends its jobs' audit entries in batch order |
| Worker.BatchRows | internal/events/workers/broadcast_worker.go:84-86 | each job of a batch of distinct claimed rows ends with its own final row |
| Worker.BatchOtherRows | internal/events/workers/broadcast_worker.go:84-86 | rows no job of the batch names are left alone |
| Worker.RunOnce | internal/events/workers/broadcast_worker.go:74-87 | a failed claim changes nothing; a poll changes only jobs and the audit log |
| Worker.RunOnceAudit | internal/events/workers/broadcast_worker.go:74-87 | one poll keeps the database consistent and appends exactly the claimed jobs' audit entries, in the returned order |
| Worker.RunOnceRows | internal/events/workers/broadcast_worker.go:74-87 | one poll gives each claimed job its final row and leaves rows that were not pending alone |
| Worker.RunOnceEffect | internal/events/workers/broadcast_worker.go:74-87 | the whole effect of one poll: consistency, final rows of the claimed jobs, untouched sent and failed rows, and the audit trail in order |
| Worker.IdlePoll | internal/events/workers/broadcast_worker.go:80-82 | a poll with nothing pending changes nothing |
| Worker.SinglePendingJob | internal/events/workers/broadcast_worker.go:84-86 | a single pending job is processed exactly once by one poll |
| Worker.FcmFailurePoll | internal/events/workers/broadcast_worker.go:116-125 | scenario on a table holding only one pending `fcm` job: a failed send re-queues it with the error before the third attempt and fails and audits it on the third |
| Worker.FcmFailureClaimed | internal/events/workers/broadcast_worker.go:116-125 | on any table, a claimed `fcm` job whose send fails gains one attempt, keeps the error, and is pending again before the third attempt and failed on it |
| Worker.IdleTrace | internal/events/workers/broadcast_worker.go:74-87 | once nothing is pending, any number of polls changes nothing |
| Worker.FailingPolls | internal/events/workers/broadcast_worker.go:93-125 | scenario on a table holding only one pending `fcm` job whose sends keep failing: it gains one attempt per poll, stays pending below three, becomes failed at three with the error kept and exactly one failed audit entry, and then stays put |
| Worker.RetryThenSent | internal/events/workers/broadcast_worker.go:93-131 | scenario on a table holding only one fresh `fcm` job: two failed sends and a success end it sent after three attempts, with no error and one delivered audit entry |
| Worker.LostStatusWriteStrandsJob | internal/events/workers/broadcast_worker.go:121-130 | scenario on a table holding only one pending job: when the status write fails the job stays processing and no later poll claims it again |
| Worker.LostStatusWriteStrands | internal/events/workers/broadcast_worker.go:121-130 | on any table, a claimed job whose status write fails is left processing, and no later poll changes its row |
| Worker.UnknownChannelIsSent | internal/events/workers/broadcast_worker.go:110-114 | as written, a job on a channel with no sender ends sent with no error and is audited as delivered |
| Worker.UnknownChannelFailsWhenCorrected | internal/events/workers/broadcast_worker.go:110-114 | with the corrected switch the same job fails on its first processing, with the configuration error on the row and in the audit log |
| FeedHandler.ClientToken | internal/events/handlers/feed.go:16-18 | the normalised token is no longer than the header and has no white space at either end |
| FeedHandler.Quote | internal/events/handlers/feed.go:95-96 | the header value is the tag between two double quotes |
| FeedHandler.PageOrDefault | internal/events/handlers/feed.go:44-46 | a positive page is kept and any other becomes 1 |
| FeedHandler.SizeOrDefault | internal/events/handlers/feed.go:47-49 | a positive size is kept and any other becomes 10 |
| FeedHandler.SinceFilter | internal/events/handlers/feed.go:52-58 | a filter exists iff `since` is non-empty and parses, and it is the parsed time |
| FeedHandler.Items | internal/events/handlers/feed.go:68-91 | one item per event, in order, each carrying its event's fields and tags |
| FeedHandler.ListEvents | internal/events/handlers/feed.go:13-108 | 500 iff the version cannot be read; 304 iff the normalised token equals the tag; 400 iff the query does not bind after that; 500 "cannot load events" iff the feed read fails after that; a page iff it succeeds, with the quoted tag as `ETag` |
| FeedHandler.ETagRoundTrip | internal/events/handlers/feed.go:95-96 | normalising the header the server sends gives back the tag |
| FeedHandler.Revalidate | internal/events/handlers/feed.go:27-35 | sending back the `ETag` received gets 304 while the version is unchanged |
| FeedHandler.BumpInvalidates | internal/events/handlers/feed.go:27-35 | after one version bump a previously handed-out `ETag` no longer gets 304 |
| FeedHandler.ETagsDiffer | internal/events/handlers/feed.go:27 | consecutive versions have different tags |
| FeedHandler.NotModifiedSkipsFeed | internal/events/handlers/feed.go:31-35 | the 304 is decided before the query is bound or the feed read: neither can change it |
| FeedHandler.PagingDefaults | internal/events/handlers/feed.go:44-49 | the echoed page and size are the requested ones, with non-positive values replaced by 1 and 10 |
| FeedHandler.BadSinceIgnored | internal/events/handlers/feed.go:52-58 | a `since` that does not parse gives the same answer as no `since` |
| FeedHandler.PageContents | internal/events/handlers/feed.go:60-107 | the total counts all events after `since`; item `k` is the event at `(page - 1) * size + k` newest first; each item carries its event's tags in insertion order (an assumption, see Left out) |
| FeedHandler.PageItems | internal/events/handlers/feed.go:60-91 | the items built from one feed page are the events of the newest-first window starting at `(page - 1) * size`, at most `size` of them, each with its own tags |
| FeedHandler.PageNewestFirst | internal/events/handlers/feed.go:60-91 | without faults a stale token gets a page; on a consistent database it holds only events created after `since`, strictly newest first |
| Handlers.Bind | internal/events/handlers/moderate_event.go:18-22 | binding succeeds iff the body decodes and every required field is non-empty, and then yields the decoded body |
| Handlers.RequestedChannels | internal/events/handlers/broadcast_event.go:19-28 | a non-empty requested list is used as is, duplicates and all; a missing or empty one becomes fcm, email, teams |
| Handlers.PayloadOf | internal/events/handlers/broadcast_event.go:38-41 | the payload has exactly the keys title and summary, holding the event's title and summary |
| Handlers.EnqueueAll | internal/events/handlers/broadcast_event.go:43-46 | enqueueing only appends jobs, at most one per channel, and touches nothing else |
| Handlers.QueuedJobsAt | internal/events/handlers/broadcast_event.go:43-46 | job `k` of a fan-out is a pending job for channel `k` with zero attempts, the next serial id and the next timestamp |
| Handlers.EnqueueAllClean | internal/events/handlers/broadcast_event.go:43-46 | without faults, one pending job per channel is appended in order, duplicates and unknown names included |
| Handlers.ManualBroadcast | internal/events/handlers/broadcast_event.go:10-60 | 400 iff the id does not parse; 404 iff the lookup fails; 200 iff both succeed; a refused request changes nothing; success lists the requested channels; events and tags never change |
| Handlers.Publish | internal/events/handlers/broadcast_event.go:43-54 | the broadcast writes leave events and tags alone and keep the database consistent |
| Handlers.PublishClean | internal/events/handlers/broadcast_event.go:43-54 | fault-free writes append the fan-out jobs, bump the version once and append one "manual"/"triggered" row naming the channels, and nothing else |
| Handlers.BroadcastEffect | internal/events/handlers/broadcast_event.go:30-54 | a successful broadcast without storage faults has exactly the fan-out, single bump and single audit row as its effect |
| Handlers.BroadcastDefaults | internal/events/handlers/broadcast_event.go:19-28 | an empty or unbindable request broadcasts on fcm, email and teams |
| Handlers.BroadcastIgnoresWriteFaults | internal/events/handlers/broadcast_event.go:43-59 | the reply does not depend on whether the enqueues, the bump or the audit write failed |
| Handlers.BroadcastBumpsOnce | internal/events/handlers/broadcast_event.go:48-49 | the version moves by exactly one iff the broadcast succeeds and the bump does not fail |
| Handlers.StatusFor | internal/events/handlers/moderate_event.go:35-40 | approve maps to approved and reject to rejected, and only those |
| Handlers.ModerateEvent | internal/events/handlers/moderate_event.go:10-54 | 200 iff id, body, action, moderator and repository call all pass; every refusal changes nothing; success carries the mapped status; jobs and tags never change |
| Handlers.ModerateRejects | internal/events/handlers/moderate_event.go:11-45 | the refusals in order: invalid event id, binding error, bad action, invalid moderator_id, then 500 on a repository failure |
| Handlers.ModerateEffect | internal/events/handlers/moderate_event.go:42-53 | success sets the mapped status on that event only, appends one moderation audit row and bumps the version once |
| Handlers.ModerateBumpsOnce | internal/events/handlers/moderate_event.go:42-48 | the version moves by exactly one iff moderation succeeds and the bump does not fail |
| Handlers.ScheduleOf | internal/events/handlers/create_event.go:35-39 | an empty text gives no schedule; a non-empty one always gives a time, the zero time when it does not parse |
| Handlers.DraftOf | internal/events/handlers/create_event.go:47-61 | the new event has the request's fields, status draft, attachments `[]` and the parsed creator |
| Handlers.CreateEvent | internal/events/handlers/create_event.go:25-77 | 201 with the new id iff the body binds, the creator parses and the insert succeeds; a refusal changes nothing; the version, jobs and audit log never change |
| Handlers.CreateEffect | internal/events/handlers/create_event.go:47-76 | the event is appended as a draft with `[]` attachments, stamped now, followed by one tag row per requested tag in order |
| Handlers.CreateRejectsBadCreator | internal/events/handlers/create_event.go:41-45 | a creator that is not a UUID gives 400 "invalid created_by" and nothing is stored |
| Handlers.PatchOf | internal/events/handlers/update_event.go:26-51 | only present fields are written; a present but empty schedule is skipped; attachments become `[]` when sent |
| Handlers.UpdateEvent | internal/events/handlers/update_event.go:12-69 | 400 on a bad id or body, 500 on a failed transaction, 200 iff neither; a refusal changes nothing; the version, jobs and audit log never change |
| Handlers.UpdateEffect | internal/events/handlers/update_event.go:26-63 | the updated event takes each sent non-empty field and keeps the rest; every other event is unchanged |
| Handlers.UpdateTags | internal/events/handlers/update_event.go:53-63 | the event's tags become exactly the requested list, in insertion order (an assumption, see Left out); other events keep theirs |
| Handlers.UpdateEmptySchedule | internal/events/handlers/update_event.go:37-40 | a present but empty `scheduled_at` is the same request as an absent one |

## Left out

- Timestamps are abstract naturals. The state clock stands for `time.Now` and `now()`, and the `updated_at` columns are not modelled. The RFC 3339 rendering of the feed's timestamps is not modelled either.
- `uuid.Parse` and `time.Parse` are function parameters (`Parsers`). `uuid.New` is the `newId` parameter of creation. Their grammars are not modelled.
- The provider clients are an oracle per job id. These are `InitSES`, `InitFCM`, `sendFCM`, the SES message construction and the per-recipient sends. The Teams sender is the code's stub, which always succeeds.
- Concurrency is not modelled: `FOR UPDATE SKIP LOCKED`, row locks, transactions, and the worker goroutine with its poll interval and stop channel. The claim and each transaction are single atomic steps, and exclusivity is the sequential lemma `JobQueue.ClaimsDisjoint`.
- The order of `RETURNING *` is unspecified in SQL. The claim returns the rows in table order, which is the oldest first.
- JSON decoding is not modelled. A body that does not decode is an `Err` given to the handler. The validator's message for empty required fields is rendered in its usual format; the exact text is the library's.
- `ManualBroadcastRequest` is not part of this model. Its body is taken to carry a `channels` string list, which is `None` when it does not bind.
- The `attachments` of a creation request are never read by the code and are not modelled.
- The thin endpoints `GetEvent`, `ListTags` and `TagSuggest` are not modelled. Nor are the service pass-throughs, `SearchGlobalTags` and `FetchActiveStaffEmails` (the staff list is part of the email oracle).
- The feed's `channel` parameter is accepted and ignored, as in the code.
- Logging is not modelled.
- Creation times are distinct and increasing in this model, because the state clock advances on every insert. The code stamps rows with the application's `time.Now()`, so concurrent inserts can tie and clock skew can reverse the order. With ties, `ORDER BY created_at` leaves the order of the tied rows, and so the page boundaries, unspecified. The members that rest on this assumption are listed below by name.
- Job ids are positions plus one. A Postgres serial key is not rolled back, so an enqueue that fails after taking its id leaves a gap, and `ManualBroadcast` ignores such failures (`internal/events/handlers/broadcast_event.go:43-46`). The "next serial id" of `Handlers.QueuedJobsAt` is therefore a simplification.
- Integers are unbounded. Overflow of Go's 64-bit `int` is not modelled: not for the version counter, not for the attempt count, and not for the feed offset `(page - 1) * size` (`internal/events/repository/repository.go:71`). With a huge page number that product wraps in Go. For example, `page=4611686018427387905&size=4` gives offset 0, so Go serves the first page while echoing the huge page number. The model uses the exact product, so it returns an empty page there.
- Tag order is an assumption. `Preload("Tags")` (`internal/events/repository/repository.go:57` and `:74`) issues no `ORDER BY`, so SQL does not fix the order in which an event's tag rows come back. `Model.TagsOf` reads them in insertion order. The "in order" parts of `Repository.UpdateReplacesTags`, `Handlers.UpdateTags` and `FeedHandler.PageContents` rest on this assumption; what the program guarantees is the same tags as a multiset.
- Tag rows for a missing event are an assumption too. When the id of an update names no event, `Repository.UpdateEvent` still inserts the new tag rows and succeeds. This matches the code only if `event_tags.event_id` has no foreign key. The schema is not part of this model.
- Repository.FeedNewestFirst: "strictly newest first" relies on distinct, increasing creation times, which is a modelling assumption. With ties, SQL leaves the order of the tied rows unspecified.
- Repository.FeedCovers: every matching event on exactly one page relies on distinct, increasing creation times, which is a modelling assumption. With ties, SQL leaves the order and the page boundaries unspecified, so a tied row can repeat or be skipped across pages.
- FeedHandler.PageNewestFirst: "strictly newest first" relies on distinct, increasing creation times, which is a modelling assumption. With ties, SQL leaves the order of the tied rows unspecified.
- JobQueue.ClaimOldestFirst: "oldest first" and "older than every job still pending" rely on distinct, increasing creation times, which is a modelling assumption. With ties, SQL leaves unspecified which tied rows the `LIMIT` keeps.
- Worker.FcmFailurePoll: a scenario on a table holding only one pending `fcm` job. The rule for any table is `Worker.FcmFailureClaimed`.
- Worker.FailingPolls: a scenario on a table holding only one `fcm` job. With other older pending jobs, a poll may not claim it, so it need not gain an attempt on every poll.
- Worker.RetryThenSent: a scenario on a table holding only one `fcm` job that starts with zero attempts.
- Worker.LostStatusWriteStrandsJob: a scenario on a table holding only one job. The rule for any table is `Worker.LostStatusWriteStrands`.
- Text.ToLower: folds ASCII letters only; Go's `strings.ToLower` also folds other Unicode letters.
- Repository.GetEventFeed: requires a page and size of at least 1, which its only caller `ListEvents` guarantees. The offset it computes is never negative, so the database never sees a negative one; the 64-bit wrap-around of the offset is the integer line above.
- Repository.Offset: same precondition as `GetEventFeed`, for the same reason.
- Handlers.UpdateEvent: the two 400 replies are stated in one direction only. A decoder message may itself be the text "invalid id".

## Findings

| source | as written | input that shows it | evidently intended | confidence | as-written member | corrected member |
|---|---|---|---|---|---|---|
| internal/events/workers/broadcast_worker.go:110-114 | an unknown channel sets an error message that is then discarded, so the job is marked sent with no error and audited as delivered | a manual broadcast with channels `["sms"]`, whose job is then processed | an unknown channel is a configuration error: the job is failed at once with "unknown channel" recorded on the row and in a failed audit entry | high, not executed | Worker.UnknownChannelIsSent | Worker.UnknownChannelFailsWhenCorrected |
