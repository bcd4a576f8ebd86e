/**
 * The slot allocator of backend/app/services/slot.py.  A day offers the
 * hourly windows from 09:00 up to 21:00; windows whose exact (start, end)
 * pair is already assigned to a live request are skipped, and the walk
 * stops once as many windows as the category's capacity have been offered.
 */
module Slots {
  import opened Ordering
  import opened RequestModels
  import opened RequestRepo

  /** `slot_capacity_per_day` and `special_slot_capacity` of the settings. */
  const SlotCapacityPerDay: nat := 24
  const SpecialSlotCapacity: nat := 2
  const SlotLength: int := 3600
  /** The windows between 09:00 and 21:00. */
  const WindowsPerDay: nat := 12

  /** Midnight of the day `date` falls on (times are seconds since a midnight). */
  function Midnight(date: int): int {
    date - date % Day
  }

  function DayStart(date: int): int {
    Midnight(date) + 9 * Hour
  }

  function DayEnd(date: int): int {
    Midnight(date) + 21 * Hour
  }

  /** The day's bounds: 09:00 and 21:00 of the day `date` falls on, twelve windows apart. */
  lemma DayBounds(date: int)
    ensures Midnight(date) <= date < Midnight(date) + Day
    ensures DayEnd(date) == DayStart(date) + WindowsPerDay * SlotLength
  {
  }

  /** Hazardous waste and e-waste get the special capacity, every other category the daily one. */
  function Capacity(category: string): (cap: nat)
    ensures cap == (if category in {"hazardous", "e-waste"} then SpecialSlotCapacity else SlotCapacityPerDay)
  {
    if category == "hazardous" || category == "e-waste" then SpecialSlotCapacity else SlotCapacityPerDay
  }

  /** The `k`-th hourly window after `dayStart`. */
  function Candidate(dayStart: int, k: int): SlotWindow {
    SlotWindow(dayStart + k * SlotLength, dayStart + (k + 1) * SlotLength)
  }

  /** The free windows among the first `n` windows of the day, in grid order. */
  function Free(dayStart: int, n: nat, taken: set<SlotWindow>): (ws: seq<SlotWindow>)
    ensures |ws| <= n
  {
    if n == 0 then []
    else
      var c := Candidate(dayStart, n - 1);
      Free(dayStart, n - 1, taken) + (if c in taken then [] else [c])
  }

  /**
   * What `Free` finds: grid windows below `n` only, none of them taken,
   * starts strictly increasing, and no free grid window below `n` missing.
   */
  lemma {:induction false} FreeFacts(dayStart: int, n: nat, taken: set<SlotWindow>)
    ensures forall w :: w in Free(dayStart, n, taken) ==> w !in taken
    ensures forall w :: w in Free(dayStart, n, taken) ==> exists k :: 0 <= k < n && w == Candidate(dayStart, k)
    ensures forall i, j :: 0 <= i < j < |Free(dayStart, n, taken)| ==>
      Free(dayStart, n, taken)[i].start < Free(dayStart, n, taken)[j].start
    ensures forall w :: w in Free(dayStart, n, taken) ==> w.start < dayStart + n * SlotLength
    ensures forall k :: 0 <= k < n && Candidate(dayStart, k) !in taken ==> Candidate(dayStart, k) in Free(dayStart, n, taken)
    decreases n
  {
    if n > 0 {
      FreeFacts(dayStart, n - 1, taken);
      var prev := Free(dayStart, n - 1, taken);
      var c := Candidate(dayStart, n - 1);
      var ws := Free(dayStart, n, taken);
      assert ws == prev + (if c in taken then [] else [c]);
      forall w | w in ws ensures w.start < dayStart + n * SlotLength {
        if w in prev {
          assert w.start < dayStart + (n - 1) * SlotLength;
        }
      }
      forall i, j | 0 <= i < j < |ws| ensures ws[i].start < ws[j].start {
        if j == |prev| {
          assert ws[i] in prev;
        } else {
          assert ws[i] == prev[i] && ws[j] == prev[j];
        }
      }
    }
  }

  /** Scanning more of the grid only extends the free windows found so far. */
  lemma {:induction false} FreePrefix(dayStart: int, m: nat, n: nat, taken: set<SlotWindow>)
    requires m <= n
    ensures Free(dayStart, m, taken) <= Free(dayStart, n, taken)
    decreases n
  {
    if m < n {
      FreePrefix(dayStart, m, n - 1, taken);
    }
  }

  /**
   * The windows offered for a day: the first `capacity` free windows of the
   * twelve, or all free ones when fewer remain.
   */
  function FirstFree(dayStart: int, taken: set<SlotWindow>, capacity: nat): (ws: seq<SlotWindow>)
    ensures |ws| <= capacity && |ws| <= WindowsPerDay
    ensures forall i :: 0 <= i < |ws| ==> ws[i] !in taken
    ensures forall i :: 0 <= i < |ws| ==> ws[i].end == ws[i].start + SlotLength
    ensures forall i :: 0 <= i < |ws| ==>
      dayStart <= ws[i].start && ws[i].end <= dayStart + WindowsPerDay * SlotLength
    ensures forall i :: 0 <= i < |ws| ==> exists k :: 0 <= k < WindowsPerDay && ws[i] == Candidate(dayStart, k)
    ensures forall i, j :: 0 <= i < j < |ws| ==> ws[i].start < ws[j].start
    ensures forall k :: 0 <= k < WindowsPerDay && Candidate(dayStart, k) !in taken && Candidate(dayStart, k) !in ws ==>
      |ws| == capacity && forall i :: 0 <= i < |ws| ==> ws[i].start < Candidate(dayStart, k).start
  {
    FreeFacts(dayStart, WindowsPerDay, taken);
    var all := Free(dayStart, WindowsPerDay, taken);
    var ws := all[..Min(capacity, |all|)];
    forall i | 0 <= i < |ws|
      ensures ws[i].end == ws[i].start + SlotLength
      ensures dayStart <= ws[i].start && ws[i].end <= dayStart + WindowsPerDay * SlotLength
      ensures exists k :: 0 <= k < WindowsPerDay && ws[i] == Candidate(dayStart, k)
    {
      assert ws[i] == all[i] && all[i] in all;
      var k :| 0 <= k < WindowsPerDay && all[i] == Candidate(dayStart, k);
    }
    forall k | 0 <= k < WindowsPerDay && Candidate(dayStart, k) !in taken && Candidate(dayStart, k) !in ws
      ensures |ws| == capacity && forall i :: 0 <= i < |ws| ==> ws[i].start < Candidate(dayStart, k).start
    {
      var c := Candidate(dayStart, k);
      var idx :| 0 <= idx < |all| && all[idx] == c;
      assert forall i :: 0 <= i < |ws| ==> ws[i] == all[i];
    }
    ws
  }

  /** The assigned slots of the live requests whose slot starts within [dayStart, dayEnd). */
  ghost function TakenSlots(rows: map<int, PickupRequest>, dayStart: int, dayEnd: int): set<SlotWindow> {
    set id | id in rows && HoldsSlotIn(rows[id], dayStart, dayEnd) :: rows[id].assignedSlot.value
  }

  /** The slots of the conflicting requests are exactly the day's taken slots. */
  lemma TakenFromConflicts(rows: map<int, PickupRequest>, live: seq<PickupRequest>, dayStart: int, dayEnd: int)
    requires forall i :: 0 <= i < |live| ==>
      live[i].id in rows && rows[live[i].id] == live[i] && HoldsSlotIn(live[i], dayStart, dayEnd)
    requires forall id :: id in rows && HoldsSlotIn(rows[id], dayStart, dayEnd) ==> rows[id] in live
    ensures (set j | 0 <= j < |live| && live[j].assignedSlot.Some? :: live[j].assignedSlot.value)
            == TakenSlots(rows, dayStart, dayEnd)
  {
    var expected := TakenSlots(rows, dayStart, dayEnd);
    forall w | w in expected
      ensures w in set j | 0 <= j < |live| && live[j].assignedSlot.Some? :: live[j].assignedSlot.value
    {
      var id :| id in rows && HoldsSlotIn(rows[id], dayStart, dayEnd) && w == rows[id].assignedSlot.value;
      var j :| 0 <= j < |live| && live[j] == rows[id];
    }
  }

  /** The set `taken` the allocator builds: the assigned windows of the given requests. */
  method CollectTaken(live: seq<PickupRequest>) returns (taken: set<SlotWindow>)
    ensures taken == set j | 0 <= j < |live| && live[j].assignedSlot.Some? :: live[j].assignedSlot.value
  {
    taken := {};
    var i := 0;
    while i < |live|
      invariant 0 <= i <= |live|
      invariant taken == set j | 0 <= j < i && live[j].assignedSlot.Some? :: live[j].assignedSlot.value
    {
      if live[i].assignedSlot.Some? {
        taken := taken + {live[i].assignedSlot.value};
      }
      i := i + 1;
    }
  }

  /**
   * The windows offered on the day `date` falls on for a request of
   * `category`: exactly the first free windows of the day's grid, as many
   * as the category's capacity allows.
   */
  method AvailableSlots(repo: RequestRepository, date: int, category: string) returns (slots: seq<SlotWindow>)
    requires repo.Valid()
    ensures slots == FirstFree(DayStart(date), TakenSlots(repo.rows, DayStart(date), DayEnd(date)), Capacity(category))
  {
    var dayStart := DayStart(date);
    var dayEnd := DayEnd(date);
    var live := repo.FindConflictingSlots(dayStart, dayEnd);

    var taken := CollectTaken(live);
    TakenFromConflicts(repo.rows, live, dayStart, dayEnd);

    var capacity := Capacity(category);
    var current := dayStart;
    ghost var k: nat := 0;
    slots := [];
    while current < dayEnd && |slots| < capacity
      invariant k <= WindowsPerDay && current == dayStart + k * SlotLength
      invariant slots == Free(dayStart, k, taken) && |slots| <= capacity
      decreases dayEnd - current
    {
      var slot := SlotWindow(current, current + SlotLength);
      assert slot == Candidate(dayStart, k);
      if slot !in taken {
        slots := slots + [slot];
      }
      current := current + SlotLength;
      k := k + 1;
    }
    FreePrefix(dayStart, k, WindowsPerDay, taken);
  }
}
