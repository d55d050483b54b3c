/** The resident-facing server actions: listing the slots, looking one up, and
    admitting a booking into a slot (`getAllSlots`, `getSlotById`, `bookSlot`). */
module Actions {
  import opened Types
  import opened Text
  import opened Store

  const SlotNotFoundError: string := "Slot not found"
  const SlotFullError: string := "Slot Full"
  const BookFailedError: string := "Failed to book slot. Please try again."
  const FetchSlotError: string := "Failed to fetch slot"

  // ---------------------------------------------------------------------------
  // Listing: `orderBy: [{ date: 'asc' }, { time: 'asc' }]`
  // ---------------------------------------------------------------------------

  /** Slot `x` may precede slot `y`: earlier date, or the same date and a time
      label that is not lexically greater. */
  predicate SlotLe(x: Slot, y: Slot) {
    LexLt(x.date, y.date) || (x.date == y.date && LexLe(x.time, y.time))
  }

  lemma SlotLeTotal(x: Slot, y: Slot)
    ensures SlotLe(x, y) || SlotLe(y, x)
  {
    LexLeTotal(x.date, y.date);
    LexLeTotal(x.time, y.time);
  }

  lemma SlotLeTransitive(x: Slot, y: Slot, z: Slot)
    requires SlotLe(x, y) && SlotLe(y, z)
    ensures SlotLe(x, z)
  {
    if x.date == y.date && y.date == z.date {
      LexLeTransitive(x.time, y.time, z.time);
    } else {
      LexLeReflexive(y.date);
      LexLeTransitive(x.date, y.date, z.date);
      if x.date == z.date {
        LexLeAntisymmetric(x.date, y.date);
      }
    }
  }

  predicate SortedByDateTime(s: seq<Slot>) {
    forall i, j :: 0 <= i < j < |s| ==> SlotLe(s[i], s[j])
  }

  function InsertSlot(x: Slot, s: seq<Slot>): (r: seq<Slot>)
    ensures multiset(r) == multiset(s) + multiset{x}
  {
    if s == [] then [x]
    else if SlotLe(x, s[0]) then [x] + s
    else
      assert s == [s[0]] + s[1..];
      [s[0]] + InsertSlot(x, s[1..])
  }

  /** The order the store returns slots in (a stable insertion sort). */
  function SortSlots(s: seq<Slot>): (r: seq<Slot>)
    ensures multiset(r) == multiset(s)
  {
    if s == [] then []
    else
      assert s == [s[0]] + s[1..];
      InsertSlot(s[0], SortSlots(s[1..]))
  }

  lemma {:induction false} InsertSlotSorted(x: Slot, s: seq<Slot>)
    requires SortedByDateTime(s)
    ensures SortedByDateTime(InsertSlot(x, s))
  {
    if s == [] {
    } else if SlotLe(x, s[0]) {
      var r := [x] + s;
      forall i, j | 0 <= i < j < |r| ensures SlotLe(r[i], r[j]) {
        if i == 0 && j > 1 {
          SlotLeTransitive(x, s[0], s[j - 1]);
        }
      }
    } else {
      SlotLeTotal(x, s[0]);
      var rest := InsertSlot(x, s[1..]);
      InsertSlotSorted(x, s[1..]);
      var r := [s[0]] + rest;
      assert r == InsertSlot(x, s);
      forall j | 0 < j < |r| ensures SlotLe(s[0], r[j]) {
        assert r[j] in multiset(rest);
        assert r[j] == x || r[j] in multiset(s[1..]);
        if r[j] != x {
          var k :| 0 <= k < |s[1..]| && s[1..][k] == r[j];
          assert s[k + 1] == r[j];
        }
      }
    }
  }

  lemma {:induction false} SortSlotsSorted(s: seq<Slot>)
    ensures SortedByDateTime(SortSlots(s))
  {
    if s != [] {
      SortSlotsSorted(s[1..]);
      InsertSlotSorted(s[0], SortSlots(s[1..]));
    }
  }

  function SlotOf(v: SlotView): Slot {
    Slot(v.id, v.date, v.time, v.capacity)
  }

  function SlotsOf(views: seq<SlotView>): (r: seq<Slot>)
    ensures |r| == |views|
    ensures forall k :: 0 <= k < |r| ==> r[k] == SlotOf(views[k])
  {
    seq(|views|, k requires 0 <= k < |views| => SlotOf(views[k]))
  }

  /** `include: { bookings: true }`: each slot with the bookings that point at it. */
  function Attach(slots: seq<Slot>, bookings: seq<Booking>): (r: seq<SlotView>)
    ensures SlotsOf(r) == slots
    ensures forall k :: 0 <= k < |r| ==> r[k].bookings == BookingsOf(bookings, slots[k].id)
  {
    seq(|slots|, k requires 0 <= k < |slots| =>
      SlotView(slots[k].id, slots[k].date, slots[k].time, slots[k].capacity, BookingsOf(bookings, slots[k].id)))
  }

  /** `getAllSlots`: every slot, each with its bookings, ordered by date and then
      by time label; an empty list when the store fails. */
  function GetAllSlots(t: Tables, storeUp: bool): (r: seq<SlotView>)
    ensures !storeUp ==> r == []
    ensures storeUp ==> multiset(SlotsOf(r)) == multiset(t.slots)
    ensures storeUp ==> SortedByDateTime(SlotsOf(r))
    ensures forall k :: 0 <= k < |r| ==> r[k].bookings == BookingsOf(t.bookings, r[k].id)
  {
    if !storeUp then []
    else
      SortSlotsSorted(t.slots);
      Attach(SortSlots(t.slots), t.bookings)
  }

  /** `getSlotById`: the slot with its bookings, `null` for an unknown id, and
      an error when the store fails. */
  function GetSlotById(t: Tables, id: nat, storeUp: bool): (r: Reply<Option<SlotView>>)
    ensures !storeUp <==> r == Failure(FetchSlotError)
    ensures storeUp ==> r.Success?
    ensures r.Success? && r.value.None? ==> forall s :: s in t.slots ==> s.id != id
    ensures r.Success? && r.value.Some? ==>
      r.value.value.id == id && SlotOf(r.value.value) in t.slots &&
      r.value.value.bookings == BookingsOf(t.bookings, id)
  {
    if !storeUp then Failure(FetchSlotError)
    else match FindSlot(t.slots, id)
      case None => Success(None)
      case Some(s) => Success(Some(SlotView(s.id, s.date, s.time, s.capacity, BookingsOf(t.bookings, id))))
  }

  // ---------------------------------------------------------------------------
  // Admission: `bookSlot`
  // ---------------------------------------------------------------------------

  /** The slot exists and holds fewer bookings than its capacity. */
  predicate HasRoom(t: Tables, slotId: nat) {
    FindSlot(t.slots, slotId).Some? && CountFor(t.bookings, slotId) < FindSlot(t.slots, slotId).value.capacity
  }

  /** `bookSlot(slotId, form)` as one atomic step on the tables. The store
      supplies the new row's id and the clock supplies `createdAt`. */
  function Book(t: Tables, slotId: nat, form: BookingForm, newId: nat, now: int, storeUp: bool): (r: Outcome<Booking>)
    ensures r.reply.Success? <==> storeUp && HasRoom(t, slotId)
    ensures r.reply.Failure? ==> r.after == t
    ensures !storeUp ==> r.reply == Failure(BookFailedError)
    ensures storeUp && FindSlot(t.slots, slotId).None? ==> r.reply == Failure(SlotNotFoundError)
    ensures storeUp && FindSlot(t.slots, slotId).Some? && !HasRoom(t, slotId) ==> r.reply == Failure(SlotFullError)
    ensures r.reply.Success? ==>
      && r.reply.value == Booking(newId, slotId, form.name, form.flat, form.phone, now)
      && r.after == Tables(t.slots, t.bookings + [r.reply.value])
  {
    if !storeUp then Outcome(t, Failure(BookFailedError))
    else match FindSlot(t.slots, slotId)
      case None => Outcome(t, Failure(SlotNotFoundError))
      case Some(slot) =>
        if CountFor(t.bookings, slotId) >= slot.capacity then Outcome(t, Failure(SlotFullError))
        else
          var b := Booking(newId, slotId, form.name, form.flat, form.phone, now);
          Outcome(Tables(t.slots, t.bookings + [b]), Success(b))
  }

  /** Admission adds one to the count of the slot booked and changes no other count. */
  lemma BookCounts(t: Tables, slotId: nat, form: BookingForm, newId: nat, now: int, storeUp: bool, other: nat)
    ensures var r := Book(t, slotId, form, newId, now, storeUp);
      CountFor(r.after.bookings, other) ==
        CountFor(t.bookings, other) + (if r.reply.Success? && other == slotId then 1 else 0)
  {
    var r := Book(t, slotId, form, newId, now, storeUp);
    if r.reply.Success? {
      BookingsOfAppend(t.bookings, [r.reply.value], other);
    }
  }

  /** Admission never overfills a slot. */
  lemma BookPreservesCapacity(t: Tables, slotId: nat, form: BookingForm, newId: nat, now: int, storeUp: bool)
    requires SlotIdsUnique(t.slots)
    requires WithinCapacity(t)
    ensures WithinCapacity(Book(t, slotId, form, newId, now, storeUp).after)
  {
    var r := Book(t, slotId, form, newId, now, storeUp);
    forall s | s in r.after.slots ensures CountFor(r.after.bookings, s.id) <= s.capacity {
      BookCounts(t, slotId, form, newId, now, storeUp, s.id);
      if r.reply.Success? && s.id == slotId {
        FindSlotFindsMember(t.slots, s);
      }
    }
  }

  /** Admission with a fresh id keeps the keys and the foreign key intact. */
  lemma BookPreservesValidity(t: Tables, slotId: nat, form: BookingForm, newId: nat, now: int, storeUp: bool)
    requires TablesValid(t)
    requires BookingIdsBelow(t.bookings, newId)
    ensures TablesValid(Book(t, slotId, form, newId, now, storeUp).after)
    ensures BookingIdsBelow(Book(t, slotId, form, newId, now, storeUp).after.bookings, newId + 1)
  {
    var r := Book(t, slotId, form, newId, now, storeUp);
    if r.reply.Success? {
      var bs := r.after.bookings;
      forall i, j | 0 <= i < j < |bs| ensures bs[i].id != bs[j].id {
        if j == |bs| - 1 {
          assert bs[i] in t.bookings;
        }
      }
    }
  }

  // A capacity-2 slot and a second slot on the same date, with the bookings
  // of the scenario below.
  const ScenarioSlots: seq<Slot> := [Slot(1, "2025-09-22", FirstAarti, 2), Slot(2, "2025-09-22", SecondAarti, 2)]
  const BookingA: Booking := Booking(10, 1, "A", "101", "9876543210", 0)
  const BookingB: Booking := Booking(11, 2, "B", "101", "9123456780", 1)
  const BookingC: Booking := Booking(12, 1, "C", "202", "9000000000", 2)

  /** As the code stands, a second booking of flat "101" on a date that already
      has one is admitted into the other slot of that date: nothing checks flats
      at admission, so the tables stop being unique per date. */
  lemma DuplicateFlatAdmitted()
    ensures FlatsUniquePerDate(Tables(ScenarioSlots, [BookingA]))
    ensures Book(Tables(ScenarioSlots, [BookingA]), 2, BookingForm("B", "101", "9123456780"), 11, 1, true)
      == Outcome(Tables(ScenarioSlots, [BookingA, BookingB]), Success(BookingB))
    ensures !FlatsUniquePerDate(Tables(ScenarioSlots, [BookingA, BookingB]))
  {
    var t := Tables(ScenarioSlots, [BookingA]);
    assert BookingsOf([BookingA], 2) == [];
    assert HasRoom(t, 2);
    var after := Tables(ScenarioSlots, [BookingA, BookingB]);
    assert SameDate(after.slots, after.bookings[0], after.bookings[1]);
  }

  /** A third booking into the capacity-2 slot that already holds two is refused
      with "Slot Full" and changes nothing. */
  lemma FullSlotRefused()
    ensures Book(Tables(ScenarioSlots, [BookingA, BookingB, BookingC]), 1, BookingForm("D", "303", "9111111111"), 13, 3, true)
      == Outcome(Tables(ScenarioSlots, [BookingA, BookingB, BookingC]), Failure(SlotFullError))
  {
    assert BookingsOf([BookingC], 1) == [BookingC];
    assert BookingsOf([BookingB, BookingC], 1) == [BookingC];
    assert BookingsOf([BookingA, BookingB, BookingC], 1) == [BookingA, BookingC];
  }
}
