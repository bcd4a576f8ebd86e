/**
 * The pickup-request lifecycle of backend/app/services/request.py: the
 * status state machine, the cancellation rule with its 24-hour lockout,
 * the slot confirmation shortcut, creation, listing and lookup.  Every
 * notification the service queues is appended to an outbox.
 */
module Lifecycle {
  import opened Wrappers
  import opened RequestModels
  import opened RequestRepo
  import opened RewardRepo
  import opened Rewards
  import N = NotificationRepo

  /** The statuses a citizen may still cancel from. */
  const AllowedCancelStatuses: set<Status> := {Draft, Submitted, Scheduled}

  /** The operational transition table; a status without an entry allows nothing. */
  function OrderedStatuses(s: Status): (next: set<Status>)
    ensures s !in next && |next| <= 2
    ensures next == {} <==> s in {Completed, Cancelled, Failed}
    ensures Cancelled in next <==> s in {Submitted, PendingReview, Scheduled}
    ensures Failed in next <==> s in {Enroute, Onsite, Collecting}
  {
    match s
    case Draft => {Submitted}
    case Submitted => {PendingReview, Cancelled}
    case PendingReview => {Scheduled, Cancelled}
    case Scheduled => {Enroute, Cancelled}
    case Enroute => {Onsite, Failed}
    case Onsite => {Collecting, Failed}
    case Collecting => {Collected, Failed}
    case Collected => {Handover}
    case Handover => {Verification}
    case Verification => {Completed}
    case _ => {}
  }

  /** `transition` accepts a target listed for the current status, or either escape. */
  predicate Permitted(from: Status, to: Status)
    ensures to in {Cancelled, Failed} ==> Permitted(from, to)
    ensures from in {Completed, Cancelled, Failed} ==> (Permitted(from, to) <==> to in {Cancelled, Failed})
  {
    to in OrderedStatuses(from) || to in {Cancelled, Failed}
  }

  /** The position of a status on the happy path from draft to completed. */
  function Rank(s: Status): int {
    match s
    case Draft => 0
    case Submitted => 1
    case PendingReview => 2
    case Scheduled => 3
    case Enroute => 4
    case Onsite => 5
    case Collecting => 6
    case Collected => 7
    case Handover => 8
    case Verification => 9
    case Completed => 10
    case Cancelled => -1
    case Failed => -1
  }

  /**
   * Apart from the two escapes, every permitted transition moves exactly
   * one step along the happy path; completed, cancelled and failed have no
   * table entry, so only the escapes leave them.
   */
  lemma TransitionShape(from: Status, to: Status)
    ensures Permitted(from, to) && to !in {Cancelled, Failed} ==> Rank(from) >= 0 && Rank(to) == Rank(from) + 1
    ensures OrderedStatuses(from) == {} <==> from in {Completed, Cancelled, Failed}
    ensures Permitted(from, to) <== Rank(from) >= 0 && Rank(to) == Rank(from) + 1
  {
  }

  /** The status after one `transition` call: the target if permitted, otherwise unchanged. */
  function Step(s: Status, target: Status): (next: Status)
    ensures next == target || next == s
    ensures next == target <==> Permitted(s, target) || target == s
  {
    if Permitted(s, target) then target else s
  }

  /** How many of the calls `targets`, made one after the other from `s`, enter completed. */
  function Completions(s: Status, targets: seq<Status>): (n: nat)
    ensures n <= |targets|
    ensures Completed !in targets ==> n == 0
    decreases |targets|
  {
    if targets == [] then 0
    else (if Permitted(s, targets[0]) && targets[0] == Completed then 1 else 0)
         + Completions(Step(s, targets[0]), targets[1..])
  }

  /** Once completed, cancelled or failed, no sequence of transitions completes (again). */
  lemma {:induction false} NoCompletionAfterTerminal(s: Status, targets: seq<Status>)
    requires s in {Completed, Cancelled, Failed}
    ensures Completions(s, targets) == 0
    decreases |targets|
  {
    if targets != [] {
      assert Step(s, targets[0]) in {Completed, Cancelled, Failed};
      NoCompletionAfterTerminal(Step(s, targets[0]), targets[1..]);
    }
  }

  /**
   * Over any sequence of `transition` calls alone, completed is entered at
   * most once, so the completion reward is granted at most once.
   */
  lemma {:induction false} CompletedEnteredAtMostOnce(s: Status, targets: seq<Status>)
    ensures Completions(s, targets) <= 1
    decreases |targets|
  {
    if targets != [] {
      if Permitted(s, targets[0]) && targets[0] == Completed {
        NoCompletionAfterTerminal(Completed, targets[1..]);
      } else {
        CompletedEnteredAtMostOnce(Step(s, targets[0]), targets[1..]);
      }
    }
  }

  /**
   * `confirm_slot` consults no table: it schedules any request, a completed
   * one included, after which the pickup can be completed (and rewarded) a
   * second time; `transition` alone could never leave completed for
   * scheduled.
   */
  lemma ConfirmSlotReopensCompletion(r: PickupRequest, userId: int, w: SlotWindow, now: int)
    requires r.status == Completed
    ensures Step(r.status, Scheduled) == r.status
    ensures Completions(ScheduledRecord(r, userId, w, now).status,
                        [Enroute, Onsite, Collecting, Collected, Handover, Verification, Completed]) == 1
  {
    assert ScheduledRecord(r, userId, w, now).status == Scheduled;
    ScheduledPathCompletesOnce();
  }

  /** From scheduled, the happy path enters completed exactly once. */
  lemma ScheduledPathCompletesOnce()
    ensures Completions(Scheduled, [Enroute, Onsite, Collecting, Collected, Handover, Verification, Completed]) == 1
  {
    assert Step(Verification, Completed) == Completed;
    assert Completions(Completed, []) == 0;
    assert Completions(Verification, [Completed]) == 1;
    assert Step(Handover, Verification) == Verification;
    assert Completions(Handover, [Verification, Completed]) == 1;
    assert Step(Collected, Handover) == Handover;
    assert Completions(Collected, [Handover, Verification, Completed]) == 1;
    assert Step(Collecting, Collected) == Collected;
    assert Completions(Collecting, [Collected, Handover, Verification, Completed]) == 1;
    assert Step(Onsite, Collecting) == Collecting;
    assert Completions(Onsite, [Collecting, Collected, Handover, Verification, Completed]) == 1;
    assert Step(Enroute, Onsite) == Onsite;
    assert Completions(Enroute, [Onsite, Collecting, Collected, Handover, Verification, Completed]) == 1;
    assert Step(Scheduled, Enroute) == Enroute;
  }

  /**
   * The checks `cancel` makes before changing anything, in their order:
   * the request must exist and be the caller's, be in a cancellable
   * status, and an assigned slot must start at least 24 hours after `now`.
   */
  function CancelGuard(found: Option<PickupRequest>, now: int): (e: Option<Error>)
    ensures e == Some(NotFound) <==> found.None?
    ensures e == Some(InvalidState) <==> found.Some? && found.value.status !in AllowedCancelStatuses
    ensures e == Some(TooLateToCancel) <==>
      && found.Some? && found.value.status in AllowedCancelStatuses
      && found.value.assignedSlot.Some? && found.value.assignedSlot.value.start - now < Day
    ensures e.None? ==>
      && found.Some? && found.value.status in AllowedCancelStatuses
      && (found.value.assignedSlot.Some? ==> found.value.assignedSlot.value.start - now >= Day)
    ensures e.Some? ==> e.value in {NotFound, InvalidState, TooLateToCancel}
  {
    if found.None? then Some(NotFound)
    else if found.value.status !in AllowedCancelStatuses then Some(InvalidState)
    else if found.value.assignedSlot.Some? && found.value.assignedSlot.value.start - now < Day then Some(TooLateToCancel)
    else None
  }

  /** The lockout boundary: a slot exactly 24 hours away may be cancelled, one a second closer may not. */
  lemma CancelLockoutBoundary(r: PickupRequest, now: int)
    requires r.status == Scheduled && r.assignedSlot.Some?
    ensures r.assignedSlot.value.start == now + Day ==> CancelGuard(Some(r), now).None?
    ensures r.assignedSlot.value.start == now + Day - 1 ==> CancelGuard(Some(r), now) == Some(TooLateToCancel)
  {
  }

  /** A notification queued by the service: recipient, channel, title, body and meta. */
  datatype Notice = Notice(userId: int, channel: N.Channel, title: string, body: string, meta: map<string, int>)

  /** The repository query a listing's filters become: a falsy status or category filters nothing. */
  function QueryOf(filters: RequestFilterParams): (q: Query)
    ensures q.status == filters.status
    ensures q.category.Some? <==> filters.category.Some? && filters.category.value != ""
    ensures q.category.Some? ==> q.category == filters.category
  {
    Query(filters.status,
          if filters.category.Some? && filters.category.value != "" then filters.category else None)
  }

  /** One page of a listing, with the total over all pages and the page bounds echoed back. */
  datatype Page = Page(items: seq<PickupRequest>, total: nat, skip: nat, limit: nat)

  /** The record a `cancel` leaves behind: status cancelled and one more event. */
  function CancelledRecord(r: PickupRequest, userId: int, reason: Option<string>, now: int): (c: PickupRequest)
    ensures c.status == Cancelled && c.id == r.id && c.userId == r.userId && c.assignedSlot == r.assignedSlot
    ensures |c.events| == |r.events| + 1 && c.events[..|r.events|] == r.events
    ensures c.events[|r.events|].data == Some(CancelMove(r.status, Cancelled, reason))
  {
    r.(status := Cancelled, updatedAt := now,
       events := r.events + [RequestEvent(StatusChange, now, DecimalString(userId),
                                          Some(CancelMove(r.status, Cancelled, reason)))])
  }

  /** The record a `confirm_slot` leaves behind: the slot, status scheduled and one more event. */
  function ScheduledRecord(r: PickupRequest, userId: int, w: SlotWindow, now: int): (c: PickupRequest)
    ensures c.status == Scheduled && c.assignedSlot == Some(w) && c.id == r.id && c.userId == r.userId
    ensures |c.events| == |r.events| + 1 && c.events[..|r.events|] == r.events
    ensures c.events[|r.events|].data == Some(Move(r.status, Scheduled))
  {
    r.(assignedSlot := Some(w), status := Scheduled, updatedAt := now,
       events := r.events + [RequestEvent(StatusChange, now, DecimalString(userId),
                                          Some(Move(r.status, Scheduled)))])
  }

  /** The record a successful `transition` leaves behind, before any reward. */
  function MovedRecord(r: PickupRequest, target: Status, actor: string, now: int): (c: PickupRequest)
    ensures c.status == target && c.id == r.id && c.userId == r.userId && c.category == r.category
    ensures |c.events| == |r.events| + 1 && c.events[..|r.events|] == r.events
    ensures c.events[|r.events|] == RequestEvent(StatusChange, now, actor, Some(Move(r.status, target)))
  {
    r.(status := target, updatedAt := now,
       events := r.events + [RequestEvent(StatusChange, now, actor, Some(Move(r.status, target)))])
  }

  /**
   * The data of the event `cancel` records, as the code builds it: the
   * request object it reads the previous status from is the one `update`
   * has just changed (one session returns one object per row), so the
   * "from" status reads cancelled.
   */
  function CancelEventAsWritten(r: PickupRequest, reason: Option<string>): (d: EventData)
    ensures d.CancelMove? && d.to == Cancelled && d.reason == reason
  {
    CancelMove(ApplyFields(r, [SetStatus(Cancelled)]).status, Cancelled, reason)
  }

  /** For every cancellable request the recorded "from" is cancelled, not the status it was cancelled from. */
  lemma CancelEventLosesPreviousStatus(r: PickupRequest, reason: Option<string>)
    requires r.status in AllowedCancelStatuses
    ensures CancelEventAsWritten(r, reason).from == Cancelled
    ensures CancelEventAsWritten(r, reason) != CancelMove(r.status, Cancelled, reason)
  {
    assert ApplyFields(r, [SetStatus(Cancelled)]) == ApplyField(r, SetStatus(Cancelled));
  }

  /** The data of the event `confirm_slot` records, as the code builds it, read after the update. */
  function ConfirmEventAsWritten(r: PickupRequest, w: SlotWindow): (d: EventData)
    ensures d.Move? && d.to == Scheduled
  {
    Move(ApplyFields(r, [SetAssignedSlot(Some(w)), SetStatus(Scheduled)]).status, Scheduled)
  }

  /** The recorded "from" is always scheduled, and so wrong for every request not already scheduled. */
  lemma ConfirmEventLosesPreviousStatus(r: PickupRequest, w: SlotWindow)
    ensures ConfirmEventAsWritten(r, w).from == Scheduled
    ensures r.status != Scheduled ==> ConfirmEventAsWritten(r, w) != Move(r.status, Scheduled)
  {
    var fields := [SetAssignedSlot(Some(w)), SetStatus(Scheduled)];
    assert fields[..|fields| - 1] == [fields[0]];
    assert [fields[0]][..0] == [];
    assert ApplyFields(r, [fields[0]]) == ApplyField(r, fields[0]);
    assert ApplyFields(r, fields) == ApplyField(ApplyField(r, fields[0]), fields[1]);
  }

  class RequestService {
    const repo: RequestRepository
    const ledger: RewardRepository
    /** The notifications queued so far, oldest first. */
    var outbox: seq<Notice>

    ghost predicate Valid()
      reads this, repo, ledger
    {
      repo.Valid() && ledger.Valid()
    }

    constructor (repo: RequestRepository, ledger: RewardRepository)
      requires repo.Valid() && ledger.Valid()
      ensures Valid() && this.repo == repo && this.ledger == ledger && outbox == []
    {
      this.repo := repo;
      this.ledger := ledger;
      outbox := [];
    }

    /**
     * Stores a new request for `userId` in status submitted with a single
     * status event by that user, then queues an email and an in-app notice
     * that both carry the new request's id.
     */
    method Create(userId: int, p: CreatePayload, now: int) returns (r: PickupRequest)
      requires Valid()
      modifies this, repo
      ensures Valid()
      ensures r.status == Submitted && r.userId == userId && r.id == old(repo.nextId)
      ensures r.events == [RequestEvent(StatusChange, now, DecimalString(userId), Some(StatusStamp(Submitted)))]
      ensures r.id !in old(repo.rows) && repo.rows == old(repo.rows)[r.id := r]
      ensures r == NewRecord(r.id, userId, p, Some(Submitted), Some(r.events), now)
      ensures outbox == old(outbox) + [
        Notice(userId, N.Email, "Pickup request submitted", "Your request " + DecimalString(r.id) + " is submitted",
               map["request_id" := r.id]),
        Notice(userId, N.InApp, "Request submitted", "We received your pickup request", map["request_id" := r.id])]
    {
      var event := RequestEvent(StatusChange, now, DecimalString(userId), Some(StatusStamp(Submitted)));
      r := repo.Create(userId, p, Some(Submitted), Some([event]), now);
      outbox := outbox + [Notice(userId, N.Email, "Pickup request submitted",
                                 "Your request " + DecimalString(r.id) + " is submitted", map["request_id" := r.id])];
      outbox := outbox + [Notice(userId, N.InApp, "Request submitted", "We received your pickup request",
                                 map["request_id" := r.id])];
    }

    /** One page of the caller's requests matching the filters, with the total count of matches. */
    method List(userId: int, filters: RequestFilterParams) returns (page: Page)
      requires Valid()
      ensures page.total == |repo.MatchingIds(userId, QueryOf(filters))|
      ensures page.skip == filters.skip && page.limit == filters.limit
      ensures exists ordered :: repo.IsListing(ordered, userId, QueryOf(filters))
                                && page.items == Ordering.Window(ordered, filters.skip, filters.limit)
    {
      var items, total := repo.ListByUser(userId, QueryOf(filters), filters.skip, filters.limit);
      page := Page(items, total, filters.skip, filters.limit);
    }

    /** The caller's request with this id; a missing or foreign id is NotFound. */
    function Get(id: int, userId: int): (r: Result<PickupRequest, Error>)
      reads this, repo
      ensures r.Success? <==> repo.Get(id, Some(userId)).Some?
      ensures r.Success? ==> r.value == repo.rows[id] && (userId != 0 ==> r.value.userId == userId)
      ensures r.Failure? ==> r.error == NotFound
    {
      match repo.Get(id, Some(userId))
      case None => Failure(NotFound)
      case Some(rec) => Success(rec)
    }

    /**
     * Cancels the caller's request.  A failed check leaves everything as it
     * was; on success the request is cancelled and records one event from
     * its previous status, by the caller, with the optional reason.
     */
    method Cancel(id: int, userId: int, reason: Option<string>, now: int) returns (r: Result<PickupRequest, Error>)
      requires Valid()
      modifies repo
      ensures Valid() && repo.nextId == old(repo.nextId)
      ensures CancelGuard(old(repo.Get(id, Some(userId))), now).Some? ==>
        && r == Failure(CancelGuard(old(repo.Get(id, Some(userId))), now).value)
        && repo.rows == old(repo.rows)
      ensures CancelGuard(old(repo.Get(id, Some(userId))), now).None? ==>
        && id in old(repo.rows)
        && repo.rows == old(repo.rows)[id := CancelledRecord(old(repo.rows)[id], userId, reason, now)]
        && r == Success(repo.rows[id])
    {
      var found := repo.Get(id, Some(userId));
      var failure := CancelGuard(found, now);
      if failure.Some? {
        return Failure(failure.value);
      }
      var before := found.value.status;
      var _ := repo.Update(id, [SetStatus(Cancelled)], now);
      assert ApplyFields(old(repo.rows)[id], [SetStatus(Cancelled)]) == ApplyField(old(repo.rows)[id], SetStatus(Cancelled));
      repo.AppendEvent(id, RequestEvent(StatusChange, now, DecimalString(userId),
                                        Some(CancelMove(before, Cancelled, reason))), now);
      r := Success(repo.rows[id]);
    }

    /**
     * Books the window [start, end) for the caller's request, whatever its
     * status: the slot is assigned, the status becomes scheduled, one event
     * from the previous status is recorded and one email is queued.
     */
    method ConfirmSlot(id: int, userId: int, start: int, end: int, now: int) returns (r: Result<PickupRequest, Error>)
      requires Valid()
      modifies this, repo
      ensures Valid() && repo.nextId == old(repo.nextId)
      ensures old(repo.Get(id, Some(userId))).None? ==>
        r == Failure(NotFound) && repo.rows == old(repo.rows) && outbox == old(outbox)
      ensures old(repo.Get(id, Some(userId))).Some? ==>
        && repo.rows == old(repo.rows)[id := ScheduledRecord(old(repo.rows)[id], userId, SlotWindow(start, end), now)]
        && r == Success(repo.rows[id])
        && outbox == old(outbox) + [Notice(userId, N.Email, "Pickup scheduled", "Your slot is confirmed",
                                           map["request_id" := id])]
    {
      var found := repo.Get(id, Some(userId));
      if found.None? {
        return Failure(NotFound);
      }
      var before := found.value.status;
      var fields := [SetAssignedSlot(Some(SlotWindow(start, end))), SetStatus(Scheduled)];
      var _ := repo.Update(id, fields, now);
      assert ApplyFields(old(repo.rows)[id], fields)
          == ApplyField(ApplyField(old(repo.rows)[id], fields[0]), fields[1]) by {
        assert fields[..|fields| - 1] == [fields[0]];
        assert [fields[0]][..0] == [];
        assert ApplyFields(old(repo.rows)[id], [fields[0]]) == ApplyField(old(repo.rows)[id], fields[0]);
      }
      repo.AppendEvent(id, RequestEvent(StatusChange, now, DecimalString(userId),
                                        Some(Move(before, Scheduled))), now);
      outbox := outbox + [Notice(userId, N.Email, "Pickup scheduled", "Your slot is confirmed", map["request_id" := id])];
      r := Success(repo.rows[id]);
    }

    /**
     * Moves a request (of any owner) to `target` when the table or an
     * escape permits it, recording one event by `actor`; entering completed
     * also runs the completion reward.  A rejected call changes nothing.
     */
    method Transition(id: int, target: Status, now: int, actor: string := "system") returns (r: Result<PickupRequest, Error>)
      requires Valid()
      modifies repo, ledger
      ensures Valid() && repo.nextId == old(repo.nextId)
      ensures id !in old(repo.rows) ==>
        r == Failure(NotFound) && repo.rows == old(repo.rows) && ledger.rows == old(ledger.rows)
      ensures id in old(repo.rows) && !Permitted(old(repo.rows)[id].status, target) ==>
        r == Failure(InvalidTransition) && repo.rows == old(repo.rows) && ledger.rows == old(ledger.rows)
      ensures id in old(repo.rows) && Permitted(old(repo.rows)[id].status, target) ==>
        var moved := MovedRecord(old(repo.rows)[id], target, actor, now);
        var points := if target == Completed then PointsFor(moved.category) else 0;
        && repo.rows == old(repo.rows)[id := if points > 0 then moved.(rewardPoints := moved.rewardPoints + points) else moved]
        && r == Success(repo.rows[id])
        && (points > 0 <==> ledger.rows != old(ledger.rows))
        && (points > 0 ==> ledger.rows == old(ledger.rows) + [RewardRecord(|old(ledger.rows)| + 1, moved.userId,
                                                                          points, CompletionReason(moved.category), now)])
    {
      var found := repo.Get(id, None);
      if found.None? {
        return Failure(NotFound);
      }
      var current := found.value.status;
      if !Permitted(current, target) {
        return Failure(InvalidTransition);
      }
      var _ := repo.Update(id, [SetStatus(target)], now);
      assert ApplyFields(old(repo.rows)[id], [SetStatus(target)]) == ApplyField(old(repo.rows)[id], SetStatus(target));
      repo.AppendEvent(id, RequestEvent(StatusChange, now, actor, Some(Move(current, target))), now);
      if target == Completed {
        HandleCompletion(ledger, repo, repo.rows[id], now);
      }
      r := Success(repo.rows[id]);
    }
  }
}
