/**
 * The request table of backend/app/repositories/request.py as an in-memory
 * table from id to record.  Every write also stamps `updated_at`.
 */
module RequestRepo {
  import opened Wrappers
  import opened Ordering
  import opened RequestModels

  /** One `setattr` of an update payload: the column it names and its new value. */
  datatype FieldUpdate =
    | SetStatus(status: Status)
    | SetAssignedSlot(slot: Option<SlotWindow>)  // a falsy slot is stored as null
    | SetVendor(vendorId: Option<int>)
    | SetDescription(description: string)

  function ApplyField(r: PickupRequest, f: FieldUpdate): PickupRequest {
    match f
    case SetStatus(s) => r.(status := s)
    case SetAssignedSlot(w) => r.(assignedSlot := w)
    case SetVendor(v) => r.(vendorId := v)
    case SetDescription(d) => r.(description := d)
  }

  /** The record after the updates of `fs`, applied in order. */
  function ApplyFields(r: PickupRequest, fs: seq<FieldUpdate>): (s: PickupRequest)
    ensures s.id == r.id && s.userId == r.userId && s.category == r.category
    ensures s.events == r.events && s.rewardPoints == r.rewardPoints
    ensures s.createdAt == r.createdAt && s.updatedAt == r.updatedAt
    decreases |fs|
  {
    if |fs| == 0 then r else ApplyField(ApplyFields(r, fs[..|fs| - 1]), fs[|fs| - 1])
  }

  /** The columns an update payload can name. */
  datatype Column = StatusColumn | SlotColumn | VendorColumn | DescriptionColumn

  function ColumnOf(f: FieldUpdate): Column {
    match f
    case SetStatus(_) => StatusColumn
    case SetAssignedSlot(_) => SlotColumn
    case SetVendor(_) => VendorColumn
    case SetDescription(_) => DescriptionColumn
  }

  /** The update that would write the record's present value of column `c`. */
  function Read(r: PickupRequest, c: Column): FieldUpdate {
    match c
    case StatusColumn => SetStatus(r.status)
    case SlotColumn => SetAssignedSlot(r.assignedSlot)
    case VendorColumn => SetVendor(r.vendorId)
    case DescriptionColumn => SetDescription(r.description)
  }

  /** An update payload is a dictionary: no column is named twice. */
  ghost predicate DistinctColumns(fs: seq<FieldUpdate>) {
    forall i, j :: 0 <= i < j < |fs| ==> ColumnOf(fs[i]) != ColumnOf(fs[j])
  }

  /**
   * `update` sets exactly the supplied columns: each supplied column takes
   * its supplied value, every column the payload does not name keeps its
   * value, and so do all the columns a payload cannot name.
   */
  lemma {:induction false} ApplyFieldsSetsExactly(r: PickupRequest, fs: seq<FieldUpdate>)
    requires DistinctColumns(fs)
    ensures forall i :: 0 <= i < |fs| ==> Read(ApplyFields(r, fs), ColumnOf(fs[i])) == fs[i]
    ensures forall c :: (forall i :: 0 <= i < |fs| ==> ColumnOf(fs[i]) != c) ==>
      Read(ApplyFields(r, fs), c) == Read(r, c)
    ensures ApplyFields(r, fs).(status := r.status, assignedSlot := r.assignedSlot,
                               vendorId := r.vendorId, description := r.description) == r
  {
    if |fs| > 0 {
      var init := fs[..|fs| - 1];
      var last := fs[|fs| - 1];
      assert DistinctColumns(init) by {
        forall i, j | 0 <= i < j < |init| ensures ColumnOf(init[i]) != ColumnOf(init[j]) {
          assert init[i] == fs[i] && init[j] == fs[j];
        }
      }
      ApplyFieldsSetsExactly(r, init);
      var mid := ApplyFields(r, init);
      forall c ensures Read(ApplyField(mid, last), c) == if c == ColumnOf(last) then last else Read(mid, c) {
      }
      forall i | 0 <= i < |init| ensures init[i] == fs[i] && ColumnOf(fs[i]) != ColumnOf(last) {
      }
    }
  }

  /** The record holds a live slot starting in [dayStart, dayEnd). */
  predicate HoldsSlotIn(r: PickupRequest, dayStart: int, dayEnd: int) {
    && r.status != Cancelled && r.status != Failed
    && r.assignedSlot.Some?
    && dayStart <= r.assignedSlot.value.start < dayEnd
  }

  /** The record is a draft created before `olderThan`. */
  predicate StaleDraft(r: PickupRequest, olderThan: int) {
    r.status == Draft && r.createdAt < olderThan
  }

  /** The filters of a listing query; an absent filter matches everything. */
  datatype Query = Query(status: Option<Status>, category: Option<string>)

  predicate MatchesQuery(r: PickupRequest, userId: int, q: Query) {
    && r.userId == userId
    && (q.status.Some? ==> r.status == q.status.value)
    && (q.category.Some? ==> CategoryName(r.category) == q.category.value)
  }

  class RequestRepository {
    var rows: map<int, PickupRequest>
    var nextId: int

    /** Every row is stored under its own id, and ids below `nextId` are the only ones handed out. */
    ghost predicate Valid()
      reads this
    {
      1 <= nextId && forall id :: id in rows ==> 1 <= id < nextId && rows[id].id == id
    }

    constructor ()
      ensures Valid() && rows == map[] && nextId == 1
    {
      rows := map[];
      nextId := 1;
    }

    /** Inserts a new row under a fresh id. */
    method Create(userId: int, p: CreatePayload, status: Option<Status>,
                  events: Option<seq<RequestEvent>>, now: int) returns (r: PickupRequest)
      requires Valid()
      modifies this
      ensures Valid()
      ensures old(nextId) !in old(rows)
      ensures r == NewRecord(old(nextId), userId, p, status, events, now)
      ensures rows == old(rows)[r.id := r] && nextId == old(nextId) + 1
    {
      r := NewRecord(nextId, userId, p, status, events, now);
      rows := rows[nextId := r];
      nextId := nextId + 1;
    }

    /**
     * The row with this id; a truthy `owner` (present and non-zero) must
     * also own it.
     */
    function Get(id: int, owner: Option<int>): (r: Option<PickupRequest>)
      reads this
      ensures r.Some? <==> id in rows && (owner.Some? && owner.value != 0 ==> rows[id].userId == owner.value)
      ensures r.Some? ==> r.value == rows[id]
    {
      if id in rows && (owner.None? || owner.value == 0 || rows[id].userId == owner.value)
      then Some(rows[id]) else None
    }

    /** Applies the payload's column updates to the row, in order. */
    method Update(id: int, fields: seq<FieldUpdate>, now: int) returns (r: Option<PickupRequest>)
      requires Valid()
      modifies this
      ensures Valid() && nextId == old(nextId)
      ensures id !in old(rows) ==> r.None? && rows == old(rows)
      ensures id in old(rows) ==>
        && r == Some(ApplyFields(old(rows)[id], fields).(updatedAt := now))
        && rows == old(rows)[id := r.value]
    {
      if id !in rows {
        return None;
      }
      var rec := rows[id];
      var i := 0;
      while i < |fields|
        invariant 0 <= i <= |fields|
        invariant rec == ApplyFields(rows[id], fields[..i])
      {
        assert fields[..i + 1][..i] == fields[..i];
        rec := ApplyField(rec, fields[i]);
        i := i + 1;
      }
      assert fields[..i] == fields;
      rec := rec.(updatedAt := now);
      rows := rows[id := rec];
      r := Some(rec);
    }

    /** Adds the event at the end of the row's event log. */
    method AppendEvent(id: int, event: RequestEvent, now: int)
      requires Valid()
      modifies this
      ensures Valid() && nextId == old(nextId)
      ensures id !in old(rows) ==> rows == old(rows)
      ensures id in old(rows) ==>
        rows == old(rows)[id := old(rows)[id].(events := old(rows)[id].events + [event], updatedAt := now)]
    {
      if id !in rows {
        return;
      }
      var events := rows[id].events;
      events := events + [event];
      rows := rows[id := rows[id].(events := events, updatedAt := now)];
    }

    /** Adds `points` to the row's reward points. */
    method MarkReward(id: int, points: int, now: int)
      requires Valid()
      modifies this
      ensures Valid() && nextId == old(nextId)
      ensures id !in old(rows) ==> rows == old(rows)
      ensures id in old(rows) ==>
        rows == old(rows)[id := old(rows)[id].(rewardPoints := old(rows)[id].rewardPoints + points, updatedAt := now)]
    {
      if id !in rows {
        return;
      }
      rows := rows[id := rows[id].(rewardPoints := rows[id].rewardPoints + points, updatedAt := now)];
    }

    /**
     * The live rows whose assigned slot starts in [dayStart, dayEnd), each
     * once, in no particular order.
     */
    method FindConflictingSlots(dayStart: int, dayEnd: int) returns (found: seq<PickupRequest>)
      requires Valid()
      ensures forall i :: 0 <= i < |found| ==>
        found[i].id in rows && rows[found[i].id] == found[i] && HoldsSlotIn(found[i], dayStart, dayEnd)
      ensures forall id :: id in rows && HoldsSlotIn(rows[id], dayStart, dayEnd) ==> rows[id] in found
      ensures AtMostOnce(found)
    {
      found := [];
      var id := 1;
      while id < nextId
        invariant 1 <= id <= nextId
        invariant forall i :: 0 <= i < |found| ==>
          found[i].id in rows && found[i].id < id && rows[found[i].id] == found[i]
          && HoldsSlotIn(found[i], dayStart, dayEnd)
        invariant forall k :: k in rows && k < id && HoldsSlotIn(rows[k], dayStart, dayEnd) ==>
          rows[k] in found
        invariant AtMostOnce(found)
      {
        if id in rows && HoldsSlotIn(rows[id], dayStart, dayEnd) {
          assert rows[id] !in found;
          found := found + [rows[id]];
        }
        id := id + 1;
      }
    }

    /** The ids of the drafts created before `olderThan`. */
    ghost function StaleIds(olderThan: int): set<int>
      reads this
    {
      set id | id in rows && StaleDraft(rows[id], olderThan)
    }

    /** Deletes the drafts created before `olderThan` and reports how many there were. */
    method CleanupDrafts(olderThan: int) returns (count: nat)
      requires Valid()
      modifies this
      ensures Valid() && nextId == old(nextId)
      ensures rows == old(rows) - old(StaleIds(olderThan))
      ensures count == |old(StaleIds(olderThan))|
    {
      ghost var removed: set<int> := {};
      ghost var initial := rows;
      var id := 1;
      count := 0;
      while id < nextId
        invariant 1 <= id <= nextId
        invariant nextId == old(nextId) && initial == old(rows)
        invariant removed == set k | k in initial && k < id && StaleDraft(initial[k], olderThan)
        invariant rows == initial - removed
        invariant count == |removed|
      {
        var stale := id in rows && StaleDraft(rows[id], olderThan);
        assert stale <==> id in initial && StaleDraft(initial[id], olderThan);
        if stale {
          rows := rows - {id};
          count := count + 1;
        }
        ghost var next := if stale then removed + {id} else removed;
        assert next == set k | k in initial && k < id + 1 && StaleDraft(initial[k], olderThan);
        removed := next;
        id := id + 1;
      }
      assert removed == old(StaleIds(olderThan));
    }

    /** The ids of the rows a listing query matches. */
    ghost function MatchingIds(userId: int, q: Query): set<int>
      reads this
    {
      set id | id in rows && MatchesQuery(rows[id], userId, q)
    }

    /**
     * `ordered` lists every row the query matches, each once and newest
     * first.
     */
    ghost predicate IsListing(ordered: seq<PickupRequest>, userId: int, q: Query)
      reads this
    {
      && |ordered| == |MatchingIds(userId, q)|
      && (forall i :: 0 <= i < |ordered| ==>
            ordered[i].id in rows && rows[ordered[i].id] == ordered[i] && MatchesQuery(ordered[i], userId, q))
      && AtMostOnce(ordered)
      && NewestFirst(ordered, CreatedAt)
    }

    /** Every matching row, each collected once, sorts into a listing. */
    lemma SortedMatchesAreListing(matches: seq<PickupRequest>, userId: int, q: Query)
      requires forall i :: 0 <= i < |matches| ==>
        matches[i].id in rows && rows[matches[i].id] == matches[i] && MatchesQuery(matches[i], userId, q)
      requires AtMostOnce(matches)
      requires |matches| == |MatchingIds(userId, q)|
      ensures IsListing(SortNewestFirst(matches, CreatedAt), userId, q)
    {
      var ordered := SortNewestFirst(matches, CreatedAt);
      assert |ordered| == |multiset(ordered)| == |multiset(matches)| == |matches|;
      forall i | 0 <= i < |ordered|
        ensures ordered[i].id in rows && rows[ordered[i].id] == ordered[i] && MatchesQuery(ordered[i], userId, q)
      {
        assert ordered[i] in multiset(matches);
      }
    }

    /**
     * One page of the owner's matching rows, newest first, together with
     * the number of all matching rows (which does not depend on the page).
     */
    method ListByUser(userId: int, q: Query, skip: nat, limit: nat)
      returns (items: seq<PickupRequest>, total: nat)
      requires Valid()
      ensures total == |MatchingIds(userId, q)|
      ensures exists ordered :: IsListing(ordered, userId, q) && items == Window(ordered, skip, limit)
    {
      var matches: seq<PickupRequest> := [];
      var id := 1;
      while id < nextId
        invariant 1 <= id <= nextId
        invariant forall i :: 0 <= i < |matches| ==>
          matches[i].id in rows && matches[i].id < id && rows[matches[i].id] == matches[i]
          && MatchesQuery(matches[i], userId, q)
        invariant AtMostOnce(matches)
        invariant |matches| == |set k | k in rows && k < id && MatchesQuery(rows[k], userId, q)|
      {
        ghost var before := set k | k in rows && k < id && MatchesQuery(rows[k], userId, q);
        ghost var after := set k | k in rows && k < id + 1 && MatchesQuery(rows[k], userId, q);
        if id in rows && MatchesQuery(rows[id], userId, q) {
          assert rows[id] !in matches;
          matches := matches + [rows[id]];
          assert after == before + {id};
        } else {
          assert after == before;
        }
        id := id + 1;
      }
      assert (set k | k in rows && k < id && MatchesQuery(rows[k], userId, q)) == MatchingIds(userId, q);
      var ordered := SortNewestFirst(matches, CreatedAt);
      SortedMatchesAreListing(matches, userId, q);
      items := Window(ordered, skip, limit);
      total := |matches|;
    }
  }
}
