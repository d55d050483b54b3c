/** The store itself: the slot and booking tables as fields of one object, the
    id generator, and the writes the server actions and the seeding script make
    (`booking.create`, `booking.update`, `booking.delete`, `aartiSlot.upsert`).
    Each write is one atomic step that follows the matching rule of `Actions`,
    `AdminActions` or `UpsertStep`. */
module Database {
  import opened Types
  import opened Store
  import opened Actions
  import opened AdminActions

  /** The slot table as the seeding script sees it: the rows and the id the store
      gives the next row it creates. */
  datatype Catalogue = Catalogue(slots: seq<Slot>, nextId: nat)

  /** `aartiSlot.upsert({ where: { date_time }, update: {}, create: { date, time } })`:
      a slot with that date and time exists afterwards; an existing one is left
      as it is, an absent one is appended with the default capacity. */
  function UpsertStep(c: Catalogue, date: string, time: string, capacity: nat): (r: Catalogue)
    ensures FindByKey(r.slots, date, time).Some?
    ensures FindByKey(c.slots, date, time).Some? ==> r == c
    ensures FindByKey(c.slots, date, time).None? ==>
      r == Catalogue(c.slots + [Slot(c.nextId, date, time, capacity)], c.nextId + 1)
  {
    if FindByKey(c.slots, date, time).Some? then c
    else
      var s := Slot(c.nextId, date, time, capacity);
      assert s in c.slots + [s];
      Catalogue(c.slots + [s], c.nextId + 1)
  }

  /** The slot table is consistent and the id generator is ahead of every row. */
  predicate CatalogueValid(c: Catalogue) {
    && SlotIdsUnique(c.slots)
    && SlotKeysUnique(c.slots)
    && SlotIdsBelow(c.slots, c.nextId)
  }

  /** An upsert keeps the slot ids and the (date, time) keys unique, and every
      id that resolved before still resolves to the same slot. */
  lemma UpsertPreservesKeys(c: Catalogue, date: string, time: string, capacity: nat)
    requires CatalogueValid(c)
    ensures CatalogueValid(UpsertStep(c, date, time, capacity))
    ensures forall id :: FindSlot(c.slots, id).Some? ==>
      FindSlot(UpsertStep(c, date, time, capacity).slots, id) == FindSlot(c.slots, id)
  {
    if FindByKey(c.slots, date, time).None? {
      var s := Slot(c.nextId, date, time, capacity);
      var r := c.slots + [s];
      forall i, j | 0 <= i < j < |r| ensures r[i].id != r[j].id {
        if j == |r| - 1 { assert r[i] in c.slots; }
      }
      forall i, j | 0 <= i < j < |r| ensures r[i].date != r[j].date || r[i].time != r[j].time {
        if j == |r| - 1 { assert r[i] in c.slots; }
      }
      forall id | FindSlot(c.slots, id).Some? ensures FindSlot(r, id) == FindSlot(c.slots, id) {
        FindSlotAppend(c.slots, s, id);
      }
    }
  }

  class Ledger {
    var slots: seq<Slot>
    var bookings: seq<Booking>
    var nextSlotId: nat
    var nextBookingId: nat
    /** The capacity the schema gives a slot created without one. */
    const defaultCapacity: nat

    /** The store's keys and foreign key hold, and the id generators are ahead of every row. */
    ghost predicate Valid()
      reads this
    {
      && TablesValid(Tables(slots, bookings))
      && SlotIdsBelow(slots, nextSlotId)
      && BookingIdsBelow(bookings, nextBookingId)
    }

    function Snapshot(): Tables
      reads this
    {
      Tables(slots, bookings)
    }

    function SlotCatalogue(): Catalogue
      reads this
    {
      Catalogue(slots, nextSlotId)
    }

    constructor (defaultCapacity: nat)
      ensures Valid()
      ensures Snapshot() == Tables([], [])
      ensures this.defaultCapacity == defaultCapacity
    {
      slots, bookings := [], [];
      nextSlotId, nextBookingId := 0, 0;
      this.defaultCapacity := defaultCapacity;
    }

    /** `bookSlot`: find the slot, refuse it when it is missing or holds
        `capacity` bookings already, otherwise create the booking. */
    method BookSlot(slotId: nat, form: BookingForm, now: int, storeUp: bool) returns (r: Reply<Booking>)
      requires Valid()
      modifies this
      ensures Valid()
      ensures var o := Book(old(Snapshot()), slotId, form, old(nextBookingId), now, storeUp);
        Snapshot() == o.after && r == o.reply
      ensures nextSlotId == old(nextSlotId)
      ensures nextBookingId == old(nextBookingId) + (if r.Success? then 1 else 0)
      ensures old(WithinCapacity(Snapshot())) ==> WithinCapacity(Snapshot())
    {
      ghost var before := Snapshot();
      if WithinCapacity(before) {
        BookPreservesCapacity(before, slotId, form, nextBookingId, now, storeUp);
      }
      BookPreservesValidity(before, slotId, form, nextBookingId, now, storeUp);
      if !storeUp {
        return Failure(BookFailedError);
      }
      var slot := FindSlot(slots, slotId);
      if slot.None? {
        return Failure(SlotNotFoundError);
      }
      if CountFor(bookings, slotId) >= slot.value.capacity {
        return Failure(SlotFullError);
      }
      var b := Booking(nextBookingId, slotId, form.name, form.flat, form.phone, now);
      bookings := bookings + [b];
      nextBookingId := nextBookingId + 1;
      r := Success(b);
    }

    /** `updateBooking`: find the booking, refuse a flat another booking holds on
        the same date (unless it is "000"), then rewrite name, flat and phone. */
    method UpdateBooking(bookingId: nat, form: BookingForm, storeUp: bool) returns (r: Reply<Booking>)
      requires Valid()
      modifies this
      ensures Valid()
      ensures var o := Edit(old(Snapshot()), bookingId, form, storeUp);
        Snapshot() == o.after && r == o.reply
      ensures nextSlotId == old(nextSlotId) && nextBookingId == old(nextBookingId)
    {
      ghost var before := Snapshot();
      ghost var o := Edit(before, bookingId, form, storeUp);
      EditPreservesValidity(before, bookingId, form, storeUp, nextBookingId);
      if !storeUp {
        return Failure(UpdateFailedError);
      }
      var index := FindBookingIndex(bookings, bookingId);
      if index.None? {
        return Failure(BookingNotFoundError);
      }
      var current := bookings[index.value];
      if form.flat != MandalFlat {
        assert current in bookings;
        var date := DateOf(slots, current.slotId).value;
        var clash := FindFlatClash(slots, bookings, form.flat, date, bookingId);
        if clash.Some? {
          assert o.reply == Failure(DuplicateFlatError(form.flat));
          return Failure(DuplicateFlatError(form.flat));
        }
      }
      var updated := current.(name := form.name, flat := form.flat, phone := form.phone);
      assert o == Outcome(Tables(slots, bookings[index.value := updated]), Success(updated));
      bookings := bookings[index.value := updated];
      r := Success(updated);
      assert Snapshot() == o.after;
    }

    /** `deleteBooking`: remove the booking with that id; when the store raises,
        reply with its message and change nothing. */
    method DeleteBooking(bookingId: nat, storeUp: bool, storeError: string) returns (r: Reply<()>)
      requires Valid()
      modifies this
      ensures Valid()
      ensures var o := Delete(old(Snapshot()), bookingId, storeUp, storeError);
        Snapshot() == o.after && r == o.reply
      ensures nextSlotId == old(nextSlotId) && nextBookingId == old(nextBookingId)
    {
      DeletePreservesValidity(Snapshot(), bookingId, storeUp, storeError, nextBookingId);
      if !storeUp {
        return Failure(storeError);
      }
      var index := FindBookingIndex(bookings, bookingId);
      if index.None? {
        return Failure(storeError);
      }
      bookings := bookings[..index.value] + bookings[index.value + 1..];
      r := Success(());
    }

    /** `aartiSlot.upsert` keyed by (date, time), with an empty update. */
    method UpsertSlot(date: string, time: string)
      requires Valid()
      modifies this
      ensures Valid()
      ensures SlotCatalogue() == UpsertStep(old(SlotCatalogue()), date, time, defaultCapacity)
      ensures bookings == old(bookings) && nextBookingId == old(nextBookingId)
    {
      UpsertPreservesKeys(SlotCatalogue(), date, time, defaultCapacity);
      var existing := FindByKey(slots, date, time);
      if existing.None? {
        slots := slots + [Slot(nextSlotId, date, time, defaultCapacity)];
        nextSlotId := nextSlotId + 1;
      }
    }
  }
}
