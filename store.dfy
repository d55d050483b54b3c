/** The two tables behind the portal and the lookups the server actions run
    against them (`findUnique`, `findFirst`, the `bookings` relation), with the
    invariants the tables are meant to keep. */
module Store {
  import opened Types

  /** `aartiSlot.findUnique({ where: { id } })`. */
  function FindSlot(slots: seq<Slot>, id: nat): (r: Option<Slot>)
    ensures r.Some? ==> r.value in slots && r.value.id == id
    ensures r.None? <==> forall s :: s in slots ==> s.id != id
  {
    if slots == [] then None
    else if slots[0].id == id then Some(slots[0])
    else FindSlot(slots[1..], id)
  }

  /** When slot ids are unique, the lookup finds the one slot carrying the id. */
  lemma {:induction false} FindSlotFindsMember(slots: seq<Slot>, s: Slot)
    requires SlotIdsUnique(slots)
    requires s in slots
    ensures FindSlot(slots, s.id) == Some(s)
  {
    if slots[0] != s {
      assert slots[0].id != s.id by {
        var k :| 0 <= k < |slots| && slots[k] == s;
        assert k != 0;
      }
      FindSlotFindsMember(slots[1..], s);
    }
  }

  /** Adding a slot at the end does not change what earlier ids resolve to. */
  lemma {:induction false} FindSlotAppend(slots: seq<Slot>, x: Slot, id: nat)
    ensures FindSlot(slots + [x], id) ==
      if FindSlot(slots, id).Some? then FindSlot(slots, id)
      else if x.id == id then Some(x) else None
  {
    if slots == [] {
      assert slots + [x] == [x];
    } else {
      assert (slots + [x])[1..] == slots[1..] + [x];
      FindSlotAppend(slots[1..], x, id);
    }
  }

  /** The date of the slot a booking points at (`booking.slot.date`). */
  function DateOf(slots: seq<Slot>, slotId: nat): Option<string> {
    match FindSlot(slots, slotId)
    case None => None
    case Some(s) => Some(s.date)
  }

  /** The `bookings` relation of a slot, in table order. */
  function BookingsOf(bookings: seq<Booking>, slotId: nat): (r: seq<Booking>)
    ensures forall b :: b in r <==> b in bookings && b.slotId == slotId
    ensures |r| <= |bookings|
  {
    if bookings == [] then []
    else (if bookings[0].slotId == slotId then [bookings[0]] else []) + BookingsOf(bookings[1..], slotId)
  }

  /** `slot.bookings.length`. */
  function CountFor(bookings: seq<Booking>, slotId: nat): nat {
    |BookingsOf(bookings, slotId)|
  }

  lemma {:induction false} BookingsOfAppend(a: seq<Booking>, b: seq<Booking>, slotId: nat)
    ensures BookingsOf(a + b, slotId) == BookingsOf(a, slotId) + BookingsOf(b, slotId)
  {
    if a == [] {
      assert a + b == b;
    } else {
      assert (a + b)[0] == a[0];
      assert (a + b)[1..] == a[1..] + b;
      BookingsOfAppend(a[1..], b, slotId);
    }
  }

  /** Replacing a booking by one on the same slot leaves every slot's count as it was. */
  lemma {:induction false} CountForUpdate(bookings: seq<Booking>, i: nat, b: Booking, slotId: nat)
    requires i < |bookings| && b.slotId == bookings[i].slotId
    ensures CountFor(bookings[i := b], slotId) == CountFor(bookings, slotId)
  {
    if i > 0 {
      assert bookings[i := b][1..] == bookings[1..][i - 1 := b];
      CountForUpdate(bookings[1..], i - 1, b, slotId);
    } else {
      assert bookings[i := b][1..] == bookings[1..];
    }
  }

  /** Removing one booking lowers its slot's count by one and leaves the others. */
  lemma {:induction false} CountForRemove(bookings: seq<Booking>, i: nat, slotId: nat)
    requires i < |bookings|
    ensures CountFor(bookings[..i] + bookings[i + 1..], slotId) ==
      CountFor(bookings, slotId) - (if bookings[i].slotId == slotId then 1 else 0)
  {
    assert bookings == bookings[..i] + ([bookings[i]] + bookings[i + 1..]);
    BookingsOfAppend(bookings[..i], [bookings[i]] + bookings[i + 1..], slotId);
    BookingsOfAppend([bookings[i]], bookings[i + 1..], slotId);
    BookingsOfAppend(bookings[..i], bookings[i + 1..], slotId);
  }

  /** `booking.findUnique({ where: { id } })`, as a position in the table. */
  function FindBookingIndex(bookings: seq<Booking>, id: nat): (r: Option<nat>)
    ensures r.Some? ==> r.value < |bookings| && bookings[r.value].id == id
    ensures r.None? <==> forall k :: 0 <= k < |bookings| ==> bookings[k].id != id
  {
    if bookings == [] then None
    else if bookings[0].id == id then Some(0)
    else match FindBookingIndex(bookings[1..], id)
      case None => None
      case Some(k) => Some(k + 1)
  }

  /** The lookup by the compound unique key `date_time`. */
  function FindByKey(slots: seq<Slot>, date: string, time: string): (r: Option<Slot>)
    ensures r.Some? ==> r.value in slots && r.value.date == date && r.value.time == time
    ensures r.None? <==> forall s :: s in slots ==> s.date != date || s.time != time
  {
    if slots == [] then None
    else if slots[0].date == date && slots[0].time == time then Some(slots[0])
    else FindByKey(slots[1..], date, time)
  }

  /** Adding a slot at the end keeps every key that was present. */
  lemma {:induction false} FindByKeyAppend(slots: seq<Slot>, x: Slot, date: string, time: string)
    requires FindByKey(slots, date, time).Some?
    ensures FindByKey(slots + [x], date, time) == FindByKey(slots, date, time)
  {
    assert (slots + [x])[0] == slots[0];
    if slots[0].date != date || slots[0].time != time {
      assert (slots + [x])[1..] == slots[1..] + [x];
      FindByKeyAppend(slots[1..], x, date, time);
    }
  }

  /** How many slots carry the key (date, time). */
  function KeyCount(slots: seq<Slot>, date: string, time: string): nat {
    if slots == [] then 0
    else (if slots[0].date == date && slots[0].time == time then 1 else 0) + KeyCount(slots[1..], date, time)
  }

  /** Under the unique (date, time) constraint a present key occurs exactly once. */
  lemma {:induction false} PresentKeyOccursOnce(slots: seq<Slot>, date: string, time: string)
    requires SlotKeysUnique(slots)
    requires FindByKey(slots, date, time).Some?
    ensures KeyCount(slots, date, time) == 1
  {
    if slots[0].date == date && slots[0].time == time {
      AbsentKeyCount(slots[1..], date, time);
    } else {
      PresentKeyOccursOnce(slots[1..], date, time);
    }
  }

  lemma {:induction false} AbsentKeyCount(slots: seq<Slot>, date: string, time: string)
    requires forall s :: s in slots ==> s.date != date || s.time != time
    ensures KeyCount(slots, date, time) == 0
  {
    if slots != [] {
      assert slots[0] in slots;
      AbsentKeyCount(slots[1..], date, time);
    }
  }

  predicate SlotIdsUnique(slots: seq<Slot>) {
    forall i, j :: 0 <= i < j < |slots| ==> slots[i].id != slots[j].id
  }

  /** The `@@unique([date, time])` constraint of the slot table. */
  predicate SlotKeysUnique(slots: seq<Slot>) {
    forall i, j :: 0 <= i < j < |slots| ==> slots[i].date != slots[j].date || slots[i].time != slots[j].time
  }

  predicate BookingIdsUnique(bookings: seq<Booking>) {
    forall i, j :: 0 <= i < j < |bookings| ==> bookings[i].id != bookings[j].id
  }

  /** Every booking id is below `n`: the next id the store hands out is fresh. */
  predicate BookingIdsBelow(bookings: seq<Booking>, n: nat) {
    forall b :: b in bookings ==> b.id < n
  }

  predicate SlotIdsBelow(slots: seq<Slot>, n: nat) {
    forall s :: s in slots ==> s.id < n
  }

  /** What the store's keys and its foreign key guarantee. */
  predicate TablesValid(t: Tables) {
    && SlotIdsUnique(t.slots)
    && SlotKeysUnique(t.slots)
    && BookingIdsUnique(t.bookings)
    && forall b :: b in t.bookings ==> FindSlot(t.slots, b.slotId).Some?
  }

  /** No slot holds more bookings than its capacity. */
  predicate WithinCapacity(t: Tables) {
    forall s :: s in t.slots ==> CountFor(t.bookings, s.id) <= s.capacity
  }

  predicate SameDate(slots: seq<Slot>, a: Booking, b: Booking) {
    DateOf(slots, a.slotId).Some? && DateOf(slots, a.slotId) == DateOf(slots, b.slotId)
  }

  /** No two bookings on the same date carry the same flat, except the Mandal flat "000". */
  predicate FlatsUniquePerDate(t: Tables) {
    forall i, j ::
      0 <= i < |t.bookings| && 0 <= j < |t.bookings| && i != j &&
      t.bookings[i].flat != MandalFlat && t.bookings[i].flat == t.bookings[j].flat
      ==> !SameDate(t.slots, t.bookings[i], t.bookings[j])
  }
}
