/**
 * The client-side request store of frontend/src/app/store/requests.ts: the
 * last fetched page of requests, the request being viewed and a loading
 * flag.  Each API call is replaced by its outcome, given as a parameter:
 * `Success(value)` when the call resolves, `Failure(message)` when it
 * rejects.
 */
module ClientRequests {
  import opened Wrappers
  import opened RequestModels

  /** A page of requests, as the list endpoint returns it. */
  datatype PaginatedRequests = PaginatedRequests(items: seq<PickupRequest>, total: int, skip: int, limit: int)

  /**
   * The list after a request was created: with a list present, the new
   * request goes in front and the total grows by one; without one, there
   * is still none.
   */
  function WithCreated(list: Option<PaginatedRequests>, created: PickupRequest): (r: Option<PaginatedRequests>)
    ensures list.None? <==> r.None?
    ensures list.Some? ==>
      && |r.value.items| == |list.value.items| + 1
      && r.value.items[0] == created
      && (forall i :: 0 <= i < |list.value.items| ==> r.value.items[i + 1] == list.value.items[i])
      && r.value.total == list.value.total + 1
      && r.value.skip == list.value.skip && r.value.limit == list.value.limit
  {
    if list.Some? then Some(list.value.(items := [created] + list.value.items, total := list.value.total + 1))
    else None
  }

  /** `items.map(item => item.id === id ? replacement : item)`. */
  function ReplaceById(items: seq<PickupRequest>, id: int, replacement: PickupRequest): (r: seq<PickupRequest>)
    ensures |r| == |items|
    ensures forall i :: 0 <= i < |items| && items[i].id != id ==> r[i] == items[i]
    ensures forall i :: 0 <= i < |items| && items[i].id == id ==> r[i] == replacement
  {
    seq(|items|, i requires 0 <= i < |items| => if items[i].id == id then replacement else items[i])
  }

  /** Replacing by id with a record that carries that id a second time changes nothing more. */
  lemma ReplaceIdempotent(items: seq<PickupRequest>, id: int, replacement: PickupRequest)
    requires replacement.id == id
    ensures ReplaceById(ReplaceById(items, id, replacement), id, replacement) == ReplaceById(items, id, replacement)
  {
    var once := ReplaceById(items, id, replacement);
    var twice := ReplaceById(once, id, replacement);
    assert forall i :: 0 <= i < |once| ==> twice[i] == once[i];
  }

  /** A list without an item of that id is left as it was. */
  lemma ReplaceAbsent(items: seq<PickupRequest>, id: int, replacement: PickupRequest)
    requires forall i :: 0 <= i < |items| ==> items[i].id != id
    ensures ReplaceById(items, id, replacement) == items
  {
    var r := ReplaceById(items, id, replacement);
    assert forall i :: 0 <= i < |items| ==> r[i] == items[i];
  }

  /** The list after a cancellation: matching items replaced, length, total and paging unchanged. */
  function WithCancelled(list: Option<PaginatedRequests>, id: int, cancelled: PickupRequest): (r: Option<PaginatedRequests>)
    ensures list.None? <==> r.None?
    ensures list.Some? ==>
      && r.value.items == ReplaceById(list.value.items, id, cancelled)
      && |r.value.items| == |list.value.items|
      && r.value.total == list.value.total
      && r.value.skip == list.value.skip && r.value.limit == list.value.limit
  {
    if list.Some? then Some(list.value.(items := ReplaceById(list.value.items, id, cancelled))) else None
  }

  /** The viewed request after a cancellation: replaced only when its id matches. */
  function CurrentAfterCancel(current: Option<PickupRequest>, id: int, cancelled: PickupRequest): (r: Option<PickupRequest>)
    ensures current.Some? && current.value.id == id ==> r == Some(cancelled)
    ensures !(current.Some? && current.value.id == id) ==> r == current
  {
    if current.Some? && current.value.id == id then Some(cancelled) else current
  }

  /** Applying the same cancellation twice leaves the store as applying it once. */
  lemma CancelIdempotent(list: Option<PaginatedRequests>, current: Option<PickupRequest>, id: int, cancelled: PickupRequest)
    requires cancelled.id == id
    ensures WithCancelled(WithCancelled(list, id, cancelled), id, cancelled) == WithCancelled(list, id, cancelled)
    ensures CurrentAfterCancel(CurrentAfterCancel(current, id, cancelled), id, cancelled) == CurrentAfterCancel(current, id, cancelled)
  {
    if list.Some? {
      ReplaceIdempotent(list.value.items, id, cancelled);
    }
  }

  class RequestStore {
    var list: Option<PaginatedRequests>
    var current: Option<PickupRequest>
    var loading: bool
    /** Declared by the store; no action writes it. */
    var error: Option<string>
    /** Every value written to `loading`, in order. */
    ghost var loadingLog: seq<bool>

    constructor ()
      ensures list.None? && current.None? && !loading && error.None? && loadingLog == []
    {
      list := None;
      current := None;
      loading := false;
      error := None;
      loadingLog := [];
    }

    method SetLoading(value: bool)
      modifies this
      ensures loading == value && loadingLog == old(loadingLog) + [value]
      ensures list == old(list) && current == old(current) && error == old(error)
    {
      loading := value;
      loadingLog := loadingLog + [value];
    }

    /**
     * `load`: the fetched page replaces the list; a failed fetch leaves the
     * list as it was and is passed on.  Either way the flag goes up, then down.
     */
    method Load(fetched: Result<PaginatedRequests, string>) returns (outcome: Result<(), string>)
      modifies this
      ensures !loading && loadingLog == old(loadingLog) + [true, false]
      ensures fetched.Success? ==> list == Some(fetched.value) && outcome.Success?
      ensures fetched.Failure? ==> list == old(list) && outcome == Failure(fetched.error)
      ensures current == old(current) && error == old(error)
    {
      SetLoading(true);
      if fetched.Success? {
        list := Some(fetched.value);
        outcome := Success(());
      } else {
        outcome := Failure(fetched.error);
      }
      SetLoading(false);
    }

    /** `loadOne`: the fetched request becomes the current one and is returned. */
    method LoadOne(fetched: Result<PickupRequest, string>) returns (outcome: Result<PickupRequest, string>)
      modifies this
      ensures !loading && loadingLog == old(loadingLog) + [true, false]
      ensures outcome == fetched
      ensures current == (if fetched.Success? then Some(fetched.value) else old(current))
      ensures list == old(list) && error == old(error)
    {
      SetLoading(true);
      if fetched.Success? {
        current := Some(fetched.value);
      }
      outcome := fetched;
      SetLoading(false);
    }

    /** `create`: the created request is put in front of the list, when there is one, and returned. */
    method Create(created: Result<PickupRequest, string>) returns (outcome: Result<PickupRequest, string>)
      modifies this
      ensures !loading && loadingLog == old(loadingLog) + [true, false]
      ensures outcome == created
      ensures list == (if created.Success? then WithCreated(old(list), created.value) else old(list))
      ensures current == old(current) && error == old(error)
    {
      SetLoading(true);
      if created.Success? {
        list := WithCreated(list, created.value);
      }
      outcome := created;
      SetLoading(false);
    }

    /** `cancel`: the cancelled record replaces its copies in the list and in `current`; the flag is not touched. */
    method Cancel(id: int, cancelled: Result<PickupRequest, string>) returns (outcome: Result<PickupRequest, string>)
      modifies this
      ensures outcome == cancelled
      ensures cancelled.Success? ==>
        && list == WithCancelled(old(list), id, cancelled.value)
        && current == CurrentAfterCancel(old(current), id, cancelled.value)
      ensures cancelled.Failure? ==> list == old(list) && current == old(current)
      ensures loading == old(loading) && loadingLog == old(loadingLog) && error == old(error)
    {
      if cancelled.Success? {
        current := CurrentAfterCancel(current, id, cancelled.value);
        list := WithCancelled(list, id, cancelled.value);
      }
      outcome := cancelled;
    }
  }
}
