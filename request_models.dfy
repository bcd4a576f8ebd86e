/**
 * The pickup-request domain types of backend/app/models/request.py: the
 * status and category literals, slot windows, audit events, the validated
 * creation payload, the list filters and the stored record with its
 * column defaults.  JSON-string columns are modelled as structured fields.
 */
module RequestModels {
  import opened Wrappers

  /** Seconds are the unit of time throughout the model. */
  const Hour: int := 3600
  const Day: int := 24 * Hour

  /** The thirteen request statuses, in the order the literal lists them. */
  datatype Status =
    | Draft | Submitted | PendingReview | Scheduled | Enroute | Onsite | Collecting
    | Collected | Handover | Verification | Completed | Cancelled | Failed

  /** The six waste categories accepted on creation. */
  datatype Category = Organic | Recyclable | Hazardous | EWaste | Bulk | Other

  /** The literal a category is stored and compared as. */
  function CategoryName(c: Category): string {
    match c
    case Organic => "organic"
    case Recyclable => "recyclable"
    case Hazardous => "hazardous"
    case EWaste => "e-waste"
    case Bulk => "bulk"
    case Other => "other"
  }

  /** Reads a category literal; anything but the six names is rejected. */
  function ParseCategory(name: string): (r: Option<Category>)
    ensures r.Some? ==> CategoryName(r.value) == name
  {
    if name == "organic" then Some(Organic)
    else if name == "recyclable" then Some(Recyclable)
    else if name == "hazardous" then Some(Hazardous)
    else if name == "e-waste" then Some(EWaste)
    else if name == "bulk" then Some(Bulk)
    else if name == "other" then Some(Other)
    else None
  }

  /** Every category's literal reads back as that category. */
  lemma CategoryNameRoundTrip(c: Category)
    ensures ParseCategory(CategoryName(c)) == Some(c)
  {
  }

  /** The failure kinds the request operations report. */
  datatype Error = NotFound | InvalidState | InvalidTransition | TooLateToCancel | ValidationError

  /** A (start, end) pair of timestamps. */
  datatype SlotWindow = SlotWindow(start: int, end: int)

  datatype EventType = StatusChange | Note | Audit

  /** The structured payloads the lifecycle writes into an event's `data`. */
  datatype EventData =
    | StatusStamp(status: Status)
    | Move(from: Status, to: Status)
    | CancelMove(from: Status, to: Status, reason: Option<string>)

  /** An audit entry: type, timestamp, acting principal, optional payload. */
  datatype RequestEvent = RequestEvent(kind: EventType, at: int, actor: string, data: Option<EventData>)

  datatype Address = Address(
    line1: string, line2: Option<string>, city: string, pincode: string,
    lat: Option<real>, lng: Option<real>)

  /** The fields a citizen sends to create a request, before validation. */
  datatype RawCreate = RawCreate(
    category: string, isSpecial: bool, description: string, quantity: real,
    address: Address, preferredSlots: seq<SlotWindow>, photos: seq<string>)

  /** The fields of a creation payload once its category has been recognised. */
  datatype CreateFields = CreateFields(
    category: Category, isSpecial: bool, description: string, quantity: real,
    address: Address, preferredSlots: seq<SlotWindow>, photos: seq<string>)

  /** A validated creation payload: the quantity is strictly positive. */
  type CreatePayload = p: CreateFields | p.quantity > 0.0
    witness CreateFields(Other, false, "", 1.0, Address("", None, "", "", None, None), [], [])

  /** The validation the creation schema performs on its input. */
  function ValidateCreate(raw: RawCreate): (r: Result<CreatePayload, Error>)
    ensures r.Success? <==> ParseCategory(raw.category).Some? && raw.quantity > 0.0
    ensures r.Failure? ==> r.error == ValidationError
    ensures r.Success? ==> CategoryName(r.value.category) == raw.category
                           && r.value.isSpecial == raw.isSpecial
                           && r.value.description == raw.description
                           && r.value.quantity == raw.quantity
                           && r.value.address == raw.address
                           && r.value.preferredSlots == raw.preferredSlots
                           && r.value.photos == raw.photos
  {
    match ParseCategory(raw.category)
    case None => Failure(ValidationError)
    case Some(c) =>
      if raw.quantity > 0.0 then
        Success(CreateFields(c, raw.isSpecial, raw.description, raw.quantity,
                             raw.address, raw.preferredSlots, raw.photos))
      else Failure(ValidationError)
  }

  /** The query parameters of the request listing. */
  datatype RequestFilterParams = RequestFilterParams(
    status: Option<Status>, category: Option<string>, skip: nat, limit: nat)

  /** The filters used when the caller supplies none. */
  function DefaultFilters(): (f: RequestFilterParams)
    ensures f.status.None? && f.category.None?
    ensures f.skip == 0 && f.limit == 20
  {
    RequestFilterParams(None, None, 0, 20)
  }

  /** A stored pickup request, one row of the request table. */
  datatype PickupRequest = PickupRequest(
    id: int, userId: int, category: Category, isSpecial: bool, description: string,
    quantity: real, photos: seq<string>, address: Address, preferredSlots: seq<SlotWindow>,
    assignedSlot: Option<SlotWindow>, vendorId: Option<int>, status: Status,
    events: seq<RequestEvent>, rewardPoints: int, createdAt: int, updatedAt: int)

  /** The creation timestamp, the key of every "newest first" listing of requests. */
  function CreatedAt(r: PickupRequest): int {
    r.createdAt
  }

  /**
   * The row built from a creation payload: the columns the payload does not
   * supply take their defaults (no assigned slot or vendor, no reward points,
   * status "draft" unless one is given); both timestamps are `now`.
   */
  function NewRecord(id: int, userId: int, p: CreatePayload, status: Option<Status>,
                     events: Option<seq<RequestEvent>>, now: int): (r: PickupRequest)
    ensures r.id == id && r.userId == userId
    ensures r.status == (if status.Some? then status.value else Draft)
    ensures r.rewardPoints == 0 && r.assignedSlot.None? && r.vendorId.None?
    ensures r.events == (if events.Some? then events.value else [])
    ensures r.category == p.category && r.isSpecial == p.isSpecial
            && r.description == p.description && r.quantity == p.quantity
            && r.photos == p.photos && r.address == p.address
            && r.preferredSlots == p.preferredSlots
    ensures r.createdAt == now && r.updatedAt == now
  {
    PickupRequest(id, userId, p.category, p.isSpecial, p.description, p.quantity,
                  p.photos, p.address, p.preferredSlots, None, None, status.GetOr(Draft),
                  events.GetOr([]), 0, now, now)
  }

  /** Python's `str` of an integer: its decimal digits, with a leading '-' when negative. */
  function DecimalString(n: int): string
    decreases if n < 0 then 1 - n else n
  {
    if n < 0 then "-" + DecimalString(-n)
    else if n < 10 then [Digit(n)]
    else DecimalString(n / 10) + [Digit(n % 10)]
  }

  function Digit(d: int): char
    requires 0 <= d < 10
  {
    "0123456789"[d]
  }
}
