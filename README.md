# Waste-pickup backend core, modelled in Dafny

This project models the core of a waste-pickup service: citizens file pickup
requests, which move through a status machine from draft to completed.

- Hazardous waste and e-waste get a tighter daily slot capacity.
- Citizens may cancel a request until 24 hours before its assigned slot.
- Completing a recyclable, hazardous or e-waste pickup earns reward points.
- Notifications are queued and later marked sent or failed.
- A per-client sliding window limits request rates.
- A registry keeps each user's open live-update connections.
- A client-side store keeps the last fetched page of requests in step with creations and cancellations.

The files follow the program's structure:

| file | module | models |
|---|---|---|
| `wrappers.dfy` | `Wrappers` | `Option` and `Result` |
| `ordering.dfy` | `Ordering` | "newest first, at most n" queries and offset/limit windows, shared by the three stores |
| `request_models.dfy` | `RequestModels` | statuses, categories, slot windows, audit events, creation payload validation, list filters, the stored row and its column defaults |
| `request_repository.dfy` | `RequestRepo` | the request table as a class over `map<int, PickupRequest>`: create, get, update, append event, mark reward, conflicting slots, draft cleanup, filtered paginated listing |
| `reward_repository.dfy` | `RewardRepo` | the reward ledger: grant, per-user total, recent grants |
| `notification_repository.dfy` | `NotificationRepo` | the notification table: queue, mark sent/failed, find queued, list by user |
| `slot_service.dfy` | `Slots` | the hourly slot walk of a day |
| `reward_service.dfy` | `Rewards` | completion rewards and the reward summary |
| `request_service.dfy` | `Lifecycle` | the lifecycle service: transition table, create, list, get, cancel, confirm slot, transition |
| `rate_limit.dfy` | `RateLimit` | the rate-limit middleware's bucket logic |
| `ws_registry.dfy` | `Ws` | the connection registry |
| `request_store.dfy` | `ClientRequests` | the frontend request store |

How the model represents the system:

- **Time** is whole seconds. Each operation that reads the clock takes `now` as a parameter.
- **Ids** are integers given out by a counter.
- **JSON text columns** become structured fields.
- **Notifications queued by the lifecycle service** are appended to an outbox sequence, `Lifecycle.RequestService.outbox`.
- **API calls in the frontend store** are replaced by their outcomes, passed in as `Result` values.

## Model

| member | source | states |
|---|---|---|
| Ordering.Filter | backend/app/repositories/request.py:39-44 | keeps exactly the elements satisfying the predicate, with their multiplicities; never longer than the input |
| Ordering.FilterKeepsAscending | backend/app/repositories/notification.py:30 | a filter keeps the relative order of what it keeps: strictly ascending keys stay strictly ascending |
| Ordering.AscendingPrepend | backend/app/repositories/notification.py:30 | an element with a smaller key than all of an ascending sequence can go in front of it |
| Ordering.PrefixOfAscending | backend/app/repositories/notification.py:30 | `LIMIT` on an ascending sequence: the prefix is ascending and a sub-multiset |
| Ordering.InsertNewest | backend/app/repositories/request.py:57 | inserting adds exactly one copy of the element (multiset) |
| Ordering.InsertKeepsNewestFirst | backend/app/repositories/request.py:57 | inserting into a newest-first sequence keeps it newest first |
| Ordering.SortNewestFirst | backend/app/repositories/request.py:57 | the result is a permutation of the input ordered by descending key |
| Ordering.Window | backend/app/repositories/request.py:57 | `offset(skip).limit(limit)`: length is min(limit, n - skip), or 0 past the end; element i is input element skip + i |
| Ordering.Newest | backend/app/repositories/reward.py:21-26 | `order_by(desc).limit(n)`: min(n, size) elements, newest first, a sub-multiset, and no left-out element is newer than a kept one |
| Ordering.FrontIsNewest | backend/app/repositories/reward.py:24-25 | a prefix of a newest-first sequence is newest first, and nothing after it is newer than anything in it |
| Ordering.NewestWhere | backend/app/repositories/notification.py:45-54 | filter, newest first, then limit: exactly min(limit, number of matching elements) elements, only matching elements of the input, newest first, and no matching element left out is newer than a kept one |
| Ordering.LeftOutOfFilter | backend/app/repositories/reward.py:21-26 | a matching element missing from a limited result was dropped by the limit, not by the filter |
| RequestModels.ParseCategory | backend/app/models/request.py:56 | a parsed category prints back as the parsed name |
| RequestModels.CategoryNameRoundTrip | backend/app/models/request.py:56 | every category's literal parses back to that category |
| RequestModels.ValidateCreate | backend/app/models/request.py:53-62 | a payload is accepted exactly when its category is one of the six literals and its quantity is above 0; a rejection is a validation error |
| RequestModels.DefaultFilters | backend/app/models/request.py:93-99 | no status or category filter, skip 0, limit 20 |
| RequestModels.NewRecord | backend/app/models/request.py:108-130 | the payload's columns are copied; no slot or vendor; 0 reward points; status draft unless one is given; no events unless some are given; both timestamps are now |
| RequestRepo.ApplyFields | backend/app/repositories/request.py:81-83 | setting columns never changes id, owner, category, events, reward points or timestamps |
| RequestRepo.ApplyFieldsSetsExactly | backend/app/repositories/request.py:77-83 | with distinct columns, each named column holds its new value and every other column keeps its old one |
| RequestRepo.RequestRepository.constructor | backend/app/repositories/request.py:12-13 | an empty table whose first id is 1 |
| RequestRepo.RequestRepository.Create | backend/app/repositories/request.py:15-33 | exactly one row is added, under a fresh id, holding the defaulted record |
| RequestRepo.RequestRepository.Get | backend/app/repositories/request.py:62-68 | the row is found exactly when the id exists and, when a non-zero owner is given, belongs to that owner |
| RequestRepo.RequestRepository.Update | backend/app/repositories/request.py:70-89 | a missing id changes nothing and yields None; otherwise only that row changes, to the fields applied and the update stamp set |
| RequestRepo.RequestRepository.AppendEvent | backend/app/repositories/request.py:91-105 | a missing id changes nothing; otherwise the event is appended to that row's history and the update stamp is set |
| RequestRepo.RequestRepository.MarkReward | backend/app/repositories/request.py:107-116 | a missing id changes nothing; otherwise that row's reward points rise by the amount |
| RequestRepo.RequestRepository.FindConflictingSlots | backend/app/repositories/request.py:118-138 | returns exactly the rows, each once, that are neither cancelled nor failed and whose assigned slot starts in [dayStart, dayEnd) |
| RequestRepo.RequestRepository.CleanupDrafts | backend/app/repositories/request.py:140-148 | removes exactly the drafts created before the threshold, and reports how many it removed |
| RequestRepo.RequestRepository.SortedMatchesAreListing | backend/app/repositories/request.py:35-60 | the matching rows, each collected once, sorted newest first form a complete listing of the query |
| RequestRepo.RequestRepository.ListByUser | backend/app/repositories/request.py:35-60 | the total counts every matching row of the user; the page is the skip/limit window of all matching rows, newest first, each once |
| RewardRepo.SumPointsAppend | backend/app/repositories/reward.py:30-35 | a new grant adds its points to its owner's total only |
| RewardRepo.SumPointsNoGrants | backend/app/repositories/reward.py:35 | a user with no grants totals 0 (`int(total) if total else 0` on an empty sum) |
| RewardRepo.SumPointsNonNegative | backend/app/repositories/reward.py:30-35 | with non-negative grants, every total is non-negative |
| RewardRepo.RewardRepository.constructor | backend/app/repositories/reward.py:8-9 | an empty ledger |
| RewardRepo.RewardRepository.Grant | backend/app/repositories/reward.py:11-17 | one record is appended under the next id; the owner's total grows by the points and every other total stays |
| RewardRepo.RewardRepository.TotalPoints | backend/app/repositories/reward.py:30-35 | the sum of the user's points, 0 when the user has no grants |
| RewardRepo.RewardRepository.ListRecent | backend/app/repositories/reward.py:19-28 | exactly min(`limit`, the user's number of grants) of the user's grants (limit 10 by default), each row of the ledger at most as often as it is stored, newest first; no grant left out is newer than a returned one |
| NotificationRepo.NotificationRepository.constructor | backend/app/repositories/notification.py:12-13 | an empty table |
| NotificationRepo.NotificationRepository.Queue | backend/app/repositories/notification.py:15-26 | appends one notification under the next id; status queued unless given; meta empty unless given; not sent |
| NotificationRepo.NotificationRepository.MarkSent | backend/app/repositories/notification.py:34-43 | an unknown id changes nothing; otherwise only that notification becomes sent or failed and records the send time |
| NotificationRepo.FirstQueuedAscending | backend/app/repositories/notification.py:30 | with ids following row order, the first `limit` queued rows are a sub-multiset of the queued rows in strictly ascending id order |
| NotificationRepo.FirstQueuedUnsettled | backend/app/repositories/notification.py:30 | the first queued rows are queued rows of the table, none of them already marked sent or failed |
| NotificationRepo.FirstQueuedComplete | backend/app/repositories/notification.py:30 | exactly min(`limit`, number of queued rows) rows; fewer than `limit` only when every queued row is among them |
| NotificationRepo.NotificationRepository.FindQueued | backend/app/repositories/notification.py:28-32 | exactly min(`limit`, number of queued rows) notifications (limit 50 by default), a sub-multiset of the queued rows in strictly ascending id order, so each at most once and in table order; all queued and none already marked; fewer than `limit` only when every queued one is returned |
| NotificationRepo.NotificationRepository.ListByUser | backend/app/repositories/notification.py:45-54 | exactly min(`limit`, the user's number of notifications) of the user's notifications, each row at most as often as it is stored, newest first; none left out is newer than one returned |
| Slots.DayBounds | backend/app/services/slot.py:21-23 | the date lies in its day; the day's walk spans twelve hourly windows from 09:00 to 21:00 |
| Slots.Capacity | backend/app/services/slot.py:37 | 2 for hazardous and e-waste, 24 for every other category |
| Slots.Free | backend/app/services/slot.py:39-43 | the first n grid positions yield at most n free windows |
| Slots.FreeFacts | backend/app/services/slot.py:39-43 | the free windows are untaken grid windows below n, in strictly increasing order, and no untaken grid window below n is missing |
| Slots.FreePrefix | backend/app/services/slot.py:39-43 | walking further only extends the windows found so far |
| Slots.FirstFree | backend/app/services/slot.py:37-45 | at most capacity and at most 12 windows, each untaken, 60 minutes long, on the hourly grid of 09:00-21:00 and increasing; an untaken window is skipped only when capacity is reached, and it then starts after every offered one |
| Slots.TakenFromConflicts | backend/app/services/slot.py:27-35 | the slots of the conflicting rows are exactly the day's taken windows |
| Slots.CollectTaken | backend/app/services/slot.py:27-35 | `taken` is exactly the set of windows assigned to the conflicting requests |
| Slots.AvailableSlots | backend/app/services/slot.py:19-45 | the loop's result is exactly `FirstFree` of the day's start, taken windows and category capacity |
| Rewards.PointsFor | backend/app/services/reward.py:19 | 5 for recyclable, 10 for hazardous and e-waste, 0 otherwise |
| Rewards.RewardedCategories | backend/app/services/reward.py:19-21 | a completion earns points exactly for recyclable, hazardous and e-waste |
| Rewards.CompletionReasonNamesCategory | backend/app/services/reward.py:28 | the grant's reason is "Completed ", the category's literal, then " pickup"; distinct categories give distinct reasons |
| Rewards.HandleCompletion | backend/app/services/reward.py:16-31 | nothing happens for a zero-point category; otherwise exactly one grant is added for the owner, the request's points rise by the same amount, and only that user's total changes |
| Rewards.Summary | backend/app/services/reward.py:33-40 | the summary's total is the user's ledger sum; its recent list is at most 10 of the user's own grants |
| Lifecycle.AllowedCancelStatuses | backend/app/services/request.py:19 | draft, submitted and scheduled |
| Lifecycle.OrderedStatuses | backend/app/services/request.py:20-31 | the table: no status lists itself, none lists more than two; only completed, cancelled and failed list nothing; cancelled is listed exactly from submitted, pending review and scheduled, failed exactly from en route, on site and collecting |
| Lifecycle.Permitted | backend/app/services/request.py:174-176 | the two escapes are permitted from every status; from completed, cancelled or failed only they are |
| Lifecycle.Step | backend/app/services/request.py:174-178 | one `transition` call yields the target when permitted, and otherwise leaves the status as it was |
| Lifecycle.Completions | backend/app/services/request.py:165-193 | over a sequence of `transition` calls, completed is entered at most once per call, and never when no call targets it |
| Lifecycle.TransitionShape | backend/app/services/request.py:20-31 | every permitted move other than an escape is one step along draft to completed, and every such step is permitted; only completed, cancelled and failed have no table entry |
| Lifecycle.NoCompletionAfterTerminal | backend/app/services/request.py:165-177 | from completed, cancelled or failed, no sequence of transitions enters completed |
| Lifecycle.CompletedEnteredAtMostOnce | backend/app/services/request.py:165-193 | any sequence of transitions enters completed at most once, so rewards it at most once |
| Lifecycle.ConfirmSlotReopensCompletion | backend/app/services/request.py:138-163 | for every completed request, `transition` to scheduled is refused, yet the record `confirm_slot` leaves can be walked to completed once more |
| Lifecycle.CancelGuard | backend/app/services/request.py:102-124 | fails NotFound exactly when the request is missing or foreign, InvalidState exactly when it is found in a non-cancellable status, TooLateToCancel exactly when it is cancellable and its slot starts less than 24 h away; otherwise the cancel proceeds |
| Lifecycle.CancelLockoutBoundary | backend/app/services/request.py:122-123 | a slot exactly 24 h away may be cancelled; one a second less may not |
| Lifecycle.QueryOf | backend/app/services/request.py:81-85 | the status filter is passed on; the category filter is passed on only when present and non-empty |
| Lifecycle.CancelledRecord | backend/app/services/request.py:125-136 | status cancelled, history kept, one event appended whose "from" is the status the request left |
| Lifecycle.ScheduledRecord | backend/app/services/request.py:147-159 | slot assigned, status scheduled, history kept, one event appended from the status the request left |
| Lifecycle.MovedRecord | backend/app/services/request.py:178-189 | status set to the target, history kept, one event by the actor from the previous status to the target |
| Lifecycle.CancelEventAsWritten | backend/app/services/request.py:125-133 | as written, the cancel event moves to cancelled and carries the given reason |
| Lifecycle.ConfirmEventAsWritten | backend/app/services/request.py:147-156 | as written, the confirm event moves to scheduled |
| Lifecycle.CancelEventLosesPreviousStatus | backend/app/services/request.py:125-133 | as written, the cancel event's "from" is always cancelled, which differs from the status every cancellable request had |
| Lifecycle.ConfirmEventLosesPreviousStatus | backend/app/services/request.py:147-156 | as written, the confirm event's "from" is always scheduled, wrong for every request not already scheduled |
| Lifecycle.RequestService.constructor | backend/app/services/request.py:37-40 | built over a request table and a ledger, with an empty outbox |
| Lifecycle.RequestService.Create | backend/app/services/request.py:42-77 | one submitted row with a single status event by the owner; then an email notice and an in-app notice, both carrying the new id |
| Lifecycle.RequestService.List | backend/app/services/request.py:79-93 | the total counts all matching requests; the items are the skip/limit window of the newest-first listing; skip and limit are echoed |
| Lifecycle.RequestService.Get | backend/app/services/request.py:95-100 | success exactly when the repository finds the caller's request; otherwise NotFound |
| Lifecycle.RequestService.Cancel | backend/app/services/request.py:102-136 | a failed guard changes nothing and returns that error; otherwise only that row changes, to `CancelledRecord`, which is returned |
| Lifecycle.RequestService.ConfirmSlot | backend/app/services/request.py:138-163 | missing or foreign: NotFound, nothing changes; otherwise the row becomes `ScheduledRecord` and exactly one email notice is queued |
| Lifecycle.RequestService.Transition | backend/app/services/request.py:165-193 | missing: NotFound, nothing changes; not permitted: InvalidTransition, nothing changes; otherwise the row becomes `MovedRecord`, and the ledger gains one grant exactly when completed is entered for a rewarded category |
| RateLimit.Dropped | backend/app/core/rate_limit.py:20-21 | the eviction loop pops exactly the leading entries more than 60 s old and stops at the first entry that is not |
| RateLimit.EvictKeepsSuffix | backend/app/core/rate_limit.py:20-21 | `Evict` keeps a suffix of the bucket: every entry cut off is more than 60 s old and the new front entry, if any, is not |
| RateLimit.EvictedWithinWindow | backend/app/core/rate_limit.py:20-21 | with ascending times none after now, eviction leaves an ascending bucket of entries at most 60 s old |
| RateLimit.AppendKeepsAscending | backend/app/core/rate_limit.py:24 | appending the current time keeps a bucket ascending |
| RateLimit.TrimKeepsOrder | backend/app/core/rate_limit.py:18-24 | one call keeps every bucket ascending and free of future times |
| RateLimit.ClientKey | backend/app/core/rate_limit.py:16 | the client's host, or "anonymous" without a client |
| RateLimit.RateLimiter.constructor | backend/app/core/rate_limit.py:10 | no buckets, with the given limit (default 60) |
| RateLimit.RateLimiter.Admit | backend/app/core/rate_limit.py:14-26 | the caller's bucket is trimmed even when the request is refused; admitted exactly when fewer than `limit` entries remain, and then now is appended; no other bucket changes; no bucket exceeds the limit |
| Ws.FirstIndex | backend/app/services/ws.py:17 | the position of the first occurrence |
| Ws.RemoveFirst | backend/app/services/ws.py:16-17 | `list.remove`: an absent value changes nothing; otherwise exactly its first occurrence is removed |
| Ws.NotificationManager.constructor | backend/app/services/ws.py:7-8 | no connections |
| Ws.NotificationManager.Connect | backend/app/services/ws.py:10-12 | the connection is appended to the user's list, which is created if missing; only that user's entry changes; every list stays non-empty |
| Ws.NotificationManager.Disconnect | backend/app/services/ws.py:14-19 | the first occurrence is removed, and the user's entry is dropped once empty; an unknown user or connection changes nothing; every list stays non-empty |
| Ws.NotificationManager.Send | backend/app/services/ws.py:21-23 | one delivery of the payload per connection of the user, in list order; none for an unknown user |
| ClientRequests.WithCreated | frontend/src/app/store/requests.ts:49-53 | with a list: the created request in front, the old items shifted by one, total plus one; without one, still none |
| ClientRequests.ReplaceById | frontend/src/app/store/requests.ts:67 | same length; items of that id replaced, every other item unchanged in place |
| ClientRequests.ReplaceIdempotent | frontend/src/app/store/requests.ts:67 | replacing twice with a record of that id equals replacing once |
| ClientRequests.ReplaceAbsent | frontend/src/app/store/requests.ts:67 | a list without that id is unchanged |
| ClientRequests.WithCancelled | frontend/src/app/store/requests.ts:64-69 | with a list: items replaced by id, length and total unchanged; without one, still none |
| ClientRequests.CurrentAfterCancel | frontend/src/app/store/requests.ts:63 | the current request is replaced only when its id matches |
| ClientRequests.CancelIdempotent | frontend/src/app/store/requests.ts:60-72 | applying the same cancellation twice leaves list and current as applying it once |
| ClientRequests.RequestStore.constructor | frontend/src/app/store/requests.ts:19-22 | no list, no current request, not loading |
| ClientRequests.RequestStore.SetLoading | frontend/src/app/store/requests.ts:25 | only the loading flag changes |
| ClientRequests.RequestStore.Load | frontend/src/app/store/requests.ts:24-32 | the flag goes up, then down, whatever the outcome; a fetched page replaces the list; a failure leaves it and is passed on |
| ClientRequests.RequestStore.LoadOne | frontend/src/app/store/requests.ts:34-43 | the flag goes up, then down; a fetched request becomes current and is returned; a failure is passed on |
| ClientRequests.RequestStore.Create | frontend/src/app/store/requests.ts:45-58 | the flag goes up, then down; a created request is put in front of the list, when there is one, and returned |
| ClientRequests.RequestStore.Cancel | frontend/src/app/store/requests.ts:60-72 | list and current take the cancellation; the loading flag is untouched; a failure changes nothing |

## Findings

| source | as written | input that shows it | evidently intended | confidence | as-written member | corrected member |
|---|---|---|---|---|---|---|
| backend/app/services/request.py:125-133 | the event's "from" is read from `request.status` after `repo.update` has set the status. Within one session, `repo.get` and the `session.get` inside `update` return the same object, so the read sees "cancelled" | a submitted request, cancelled: the event records from "cancelled" to "cancelled" | "from" is the status before the cancellation, as `transition` records it by saving `current` first (line 173) | medium, not executed; it rests on the session's identity map | Lifecycle.CancelEventLosesPreviousStatus | Lifecycle.RequestService.Cancel |
| backend/app/services/request.py:147-156 | the event's "from" is read after `repo.update` has set status "scheduled" on the same session object | a pending-review request whose slot is confirmed: the event records from "scheduled" to "scheduled" | "from" is the status before the confirmation | medium, not executed; it rests on the session's identity map | Lifecycle.ConfirmEventLosesPreviousStatus | Lifecycle.RequestService.ConfirmSlot |

The as-written event data are `Lifecycle.CancelEventAsWritten` and `Lifecycle.ConfirmEventAsWritten`. The rest of the model records the status saved before the update, through `Lifecycle.CancelledRecord` and `Lifecycle.ScheduledRecord`.

## Left out

- **Transports.** Sending email by SMTP, the WebSocket `accept` and `send_json` calls, and HTTP responses and status codes are left out. Errors are values of `RequestModels.Error`.
- **The notification service** (backend/app/services/notification.py) is not part of this model. It sends in-app notices at once and drains the queue on a schedule. The lifecycle service's queued notices are modelled as an outbox sequence.
- **JSON and `to_public`.** JSON text columns and `to_public` are storage and presentation conversions. The model keeps structured fields, so `to_public` is the identity.
- **Times.** Date-times are whole seconds. Naive and aware date-times, time zones and ISO-8601 text are not modelled. The string pairs that slots compare by become `SlotWindow` value pairs.
- **`time.monotonic()`.** The rate limiter's float clock is an integer parameter.
- **Concurrency.** Concurrency, the rate limiter's asyncio lock, and the non-atomic sequence of update then append event are left out. Each operation runs alone.
- **Row ids.** New ids come from a counter. SQLite's reuse of row ids after a delete is not modelled.
- **Row order.** `find_queued` has no ORDER BY; the model returns queued rows in table order. Ties in `created_at` are left in an unspecified order: the listing lemmas only constrain the order of different times.
- **Settings.** They are constants: rate limit 60, slot capacity 24, special capacity 2. The seven-day draft cutoff is computed by the scheduler (backend/app/workers/scheduler.py), which is not part of this model; `CleanupDrafts` takes the threshold.
- RequestRepo.ApplyFields: `update` sets whatever columns its payload names. The model's `FieldUpdate` names only status, assigned slot, vendor and description, so "never changes reward points or events" holds for that type only. Every caller in the core passes only status and assigned slot.
- **Identifier types.** The frontend compares a numeric id with a string parameter. The model keeps one integer id type.
- **The store's `error` field** is declared but never written; the model keeps it unchanged.
- **Notification meta** is a `map<string, int>`: the only meta the core writes is `request_id`.
- **Values out of range.** Negative skip and limit are excluded by `nat`, and a quantity is a `real`, not a float.
- **The `by` field of an event** is the user's id in decimal (`RequestModels.DecimalString`), as Python's `str(int)` gives it.
- **Pydantic type coercion.** Payloads arrive as a raw record with a category string and a quantity, which `RequestModels.ValidateCreate` checks. Other field validation is left to the framework and not modelled.
