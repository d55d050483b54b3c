/** The administrator's server actions: editing a booking's fields, deleting a
    booking, and listing every booking newest first (`updateBooking`,
    `deleteBooking`, `getAllBookings`). */
module AdminActions {
  import opened Types
  import opened Store
  import Actions

  const BookingNotFoundError: string := "Booking not found"
  const UpdateFailedError: string := "Failed to update booking. Please try again."
  const FetchBookingsError: string := "Failed to fetch bookings"

  /** The refusal that names the flat already booked on the date. */
  function DuplicateFlatError(flat: string): string {
    "Flat " + flat + " is already booked for this date. Use 000 for Mandal Aarti."
  }

  // ---------------------------------------------------------------------------
  // Editing: `updateBooking`
  // ---------------------------------------------------------------------------

  /** Booking `b` is another booking (`id != exclude`) on a slot dated `date` with flat `flat`. */
  predicate Clashes(slots: seq<Slot>, b: Booking, flat: string, date: string, exclude: nat) {
    b.flat == flat && b.id != exclude && DateOf(slots, b.slotId) == Some(date)
  }

  /** `booking.findFirst({ where: { flat, slot: { date }, id: { not: exclude } } })`. */
  function FindFlatClash(slots: seq<Slot>, bookings: seq<Booking>, flat: string, date: string, exclude: nat): (r: Option<Booking>)
    ensures r.Some? ==> r.value in bookings && Clashes(slots, r.value, flat, date, exclude)
    ensures r.None? <==> forall b :: b in bookings ==> !Clashes(slots, b, flat, date, exclude)
  {
    if bookings == [] then None
    else if Clashes(slots, bookings[0], flat, date, exclude) then Some(bookings[0])
    else FindFlatClash(slots, bookings[1..], flat, date, exclude)
  }

  /** The booking with its name, flat and phone replaced; id, slot and creation time kept. */
  function Edited(b: Booking, form: BookingForm): Booking {
    b.(name := form.name, flat := form.flat, phone := form.phone)
  }

  /** The edit is allowed: the booking exists, and either the new flat is "000"
      or the booking's slot resolves and no other booking on that date carries
      the new flat. */
  predicate EditAllowed(t: Tables, bookingId: nat, form: BookingForm) {
    match FindBookingIndex(t.bookings, bookingId)
    case None => false
    case Some(i) =>
      || form.flat == MandalFlat
      || (&& DateOf(t.slots, t.bookings[i].slotId).Some?
          && forall b :: b in t.bookings ==>
               !Clashes(t.slots, b, form.flat, DateOf(t.slots, t.bookings[i].slotId).value, bookingId))
  }

  /** `updateBooking(bookingId, form)` as one atomic step on the tables. */
  function Edit(t: Tables, bookingId: nat, form: BookingForm, storeUp: bool): (r: Outcome<Booking>)
    ensures r.reply.Success? <==> storeUp && EditAllowed(t, bookingId, form)
    ensures r.reply.Failure? ==> r.after == t
    ensures !storeUp ==> r.reply == Failure(UpdateFailedError)
    ensures storeUp && FindBookingIndex(t.bookings, bookingId).None? ==> r.reply == Failure(BookingNotFoundError)
    ensures storeUp && FindBookingIndex(t.bookings, bookingId).Some? && !EditAllowed(t, bookingId, form)
      && DateOf(t.slots, t.bookings[FindBookingIndex(t.bookings, bookingId).value].slotId).Some?
      ==> r.reply == Failure(DuplicateFlatError(form.flat))
    ensures storeUp && FindBookingIndex(t.bookings, bookingId).Some? && form.flat != MandalFlat
      && DateOf(t.slots, t.bookings[FindBookingIndex(t.bookings, bookingId).value].slotId).None?
      ==> r.reply == Failure(UpdateFailedError)
    ensures r.reply.Success? ==>
      var i := FindBookingIndex(t.bookings, bookingId).value;
      && r.reply.value == Edited(t.bookings[i], form)
      && r.after == Tables(t.slots, t.bookings[i := r.reply.value])
  {
    if !storeUp then Outcome(t, Failure(UpdateFailedError))
    else match FindBookingIndex(t.bookings, bookingId)
      case None => Outcome(t, Failure(BookingNotFoundError))
      case Some(i) =>
        var b := Edited(t.bookings[i], form);
        if form.flat == MandalFlat then Outcome(Tables(t.slots, t.bookings[i := b]), Success(b))
        // Reading the date of a slot that does not resolve throws, and the catch replies.
        else match DateOf(t.slots, t.bookings[i].slotId)
          case None => Outcome(t, Failure(UpdateFailedError))
          case Some(date) =>
            if FindFlatClash(t.slots, t.bookings, form.flat, date, bookingId).Some? then
              Outcome(t, Failure(DuplicateFlatError(form.flat)))
            else Outcome(Tables(t.slots, t.bookings[i := b]), Success(b))
  }

  /** With unique booking ids, the lookup finds the booking at its own position. */
  lemma FindBookingAt(bookings: seq<Booking>, i: nat)
    requires BookingIdsUnique(bookings) && i < |bookings|
    ensures FindBookingIndex(bookings, bookings[i].id) == Some(i)
  {
  }

  /** An edit keeps the keys and the foreign key: ids and slot references do not change. */
  lemma EditPreservesValidity(t: Tables, bookingId: nat, form: BookingForm, storeUp: bool, n: nat)
    requires TablesValid(t) && BookingIdsBelow(t.bookings, n)
    ensures TablesValid(Edit(t, bookingId, form, storeUp).after)
    ensures BookingIdsBelow(Edit(t, bookingId, form, storeUp).after.bookings, n)
  {
    var r := Edit(t, bookingId, form, storeUp);
    if r.reply.Success? {
      var bs, bs' := t.bookings, r.after.bookings;
      assert forall k :: 0 <= k < |bs'| ==> bs'[k].id == bs[k].id && bs'[k].slotId == bs[k].slotId;
      forall b | b in bs' ensures FindSlot(t.slots, b.slotId).Some? && b.id < n {
        var k :| 0 <= k < |bs'| && bs'[k] == b;
        assert bs[k] in bs;
      }
    }
  }

  /** An edit keeps every slot's booking count. */
  lemma EditPreservesCounts(t: Tables, bookingId: nat, form: BookingForm, storeUp: bool, slotId: nat)
    ensures CountFor(Edit(t, bookingId, form, storeUp).after.bookings, slotId) == CountFor(t.bookings, slotId)
  {
    var r := Edit(t, bookingId, form, storeUp);
    if r.reply.Success? {
      var i := FindBookingIndex(t.bookings, bookingId).value;
      CountForUpdate(t.bookings, i, r.reply.value, slotId);
    }
  }

  /** An edit keeps the capacity invariant. */
  lemma EditPreservesCapacity(t: Tables, bookingId: nat, form: BookingForm, storeUp: bool)
    requires WithinCapacity(t)
    ensures WithinCapacity(Edit(t, bookingId, form, storeUp).after)
  {
    var r := Edit(t, bookingId, form, storeUp);
    forall s | s in r.after.slots ensures CountFor(r.after.bookings, s.id) <= s.capacity {
      EditPreservesCounts(t, bookingId, form, storeUp, s.id);
    }
  }

  /** If no flat other than "000" occurs twice on one date before an edit, none does after it. */
  lemma EditPreservesFlatsUnique(t: Tables, bookingId: nat, form: BookingForm, storeUp: bool)
    requires BookingIdsUnique(t.bookings)
    requires FlatsUniquePerDate(t)
    ensures FlatsUniquePerDate(Edit(t, bookingId, form, storeUp).after)
  {
    var r := Edit(t, bookingId, form, storeUp);
    if r.reply.Success? {
      var i := FindBookingIndex(t.bookings, bookingId).value;
      var bs, bs' := t.bookings, r.after.bookings;
      forall p, q | 0 <= p < |bs'| && 0 <= q < |bs'| && p != q && bs'[p].flat != MandalFlat && bs'[p].flat == bs'[q].flat
        ensures !SameDate(t.slots, bs'[p], bs'[q])
      {
        if p == i {
          var date := DateOf(t.slots, bs[i].slotId).value;
          assert bs[q].id != bookingId by {
            if q < i { assert bs[q].id != bs[i].id; } else { assert bs[i].id != bs[q].id; }
          }
          assert bs[q] in bs;
          assert !Clashes(t.slots, bs[q], form.flat, date, bookingId);
        } else if q == i {
          var date := DateOf(t.slots, bs[i].slotId).value;
          assert bs[p].id != bookingId by {
            if p < i { assert bs[p].id != bs[i].id; } else { assert bs[i].id != bs[p].id; }
          }
          assert bs[p] in bs;
          assert !Clashes(t.slots, bs[p], form.flat, date, bookingId);
        } else {
          assert bs'[p] == bs[p] && bs'[q] == bs[q];
        }
      }
    }
  }

  /** Re-saving a booking with its own flat is never refused as a duplicate:
      the booking being edited is left out of the search. */
  lemma EditOwnFlatAccepted(t: Tables, i: nat, form: BookingForm)
    requires TablesValid(t) && FlatsUniquePerDate(t)
    requires i < |t.bookings| && form.flat == t.bookings[i].flat
    ensures Edit(t, t.bookings[i].id, form, true).reply.Success?
  {
    var bs := t.bookings;
    FindBookingAt(bs, i);
    assert bs[i] in bs;
    var date := DateOf(t.slots, bs[i].slotId).value;
    if form.flat != MandalFlat {
      forall b | b in bs ensures !Clashes(t.slots, b, form.flat, date, bs[i].id) {
        if Clashes(t.slots, b, form.flat, date, bs[i].id) {
          var k :| 0 <= k < |bs| && bs[k] == b;
          assert k != i;
          assert SameDate(t.slots, bs[i], bs[k]);
          assert false;
        }
      }
    }
  }

  // Two bookings on the same date, flats "101" and "202".
  const EditSlots: seq<Slot> := [Slot(1, "2025-09-22", "First Aarti", 2), Slot(2, "2025-09-22", "Second Aarti", 2)]
  const EditBookings: seq<Booking> := [Booking(20, 1, "A", "101", "9876543210", 0), Booking(21, 2, "B", "202", "9123456780", 1)]

  /** Moving B to flat "101", which A holds on the same date, is refused and
      names the flat. */
  lemma EditClashRefused()
    ensures Edit(Tables(EditSlots, EditBookings), 21, BookingForm("B", "101", "9123456780"), true)
      == Outcome(Tables(EditSlots, EditBookings), Failure(DuplicateFlatError("101")))
  {
    var t := Tables(EditSlots, EditBookings);
    assert Clashes(t.slots, EditBookings[0], "101", "2025-09-22", 21);
    assert FindBookingIndex(EditBookings, 21) == Some(1);
  }

  /** Where two bookings on one date already share a flat other than "000",
      saving either of them with that flat again is refused as a duplicate:
      the search finds the other one. */
  lemma ResaveBlockedByDuplicate(t: Tables, i: nat, j: nat, form: BookingForm)
    requires BookingIdsUnique(t.bookings)
    requires i < |t.bookings| && j < |t.bookings| && i != j
    requires form.flat == t.bookings[i].flat && form.flat == t.bookings[j].flat && form.flat != MandalFlat
    requires SameDate(t.slots, t.bookings[i], t.bookings[j])
    ensures Edit(t, t.bookings[i].id, form, true) == Outcome(t, Failure(DuplicateFlatError(form.flat)))
  {
    var bs := t.bookings;
    FindBookingAt(bs, i);
    var date := DateOf(t.slots, bs[i].slotId).value;
    assert bs[j].id != bs[i].id by {
      if i < j { assert bs[i].id != bs[j].id; } else { assert bs[j].id != bs[i].id; }
    }
    assert bs[j] in bs && Clashes(t.slots, bs[j], form.flat, date, bs[i].id);
  }

  /** After `bookSlot` admits flat "101" twice on one date, neither booking can
      be saved with its own details: both edits are refused and change nothing. */
  lemma AdmittedDuplicateBlocksResave()
    ensures var t := Actions.Book(Tables(Actions.ScenarioSlots, [Actions.BookingA]), 2,
                                  BookingForm("B", "101", "9123456780"), 11, 1, true).after;
      && Edit(t, 10, BookingForm("A", "101", "9876543210"), true) == Outcome(t, Failure(DuplicateFlatError("101")))
      && Edit(t, 11, BookingForm("B", "101", "9123456780"), true) == Outcome(t, Failure(DuplicateFlatError("101")))
  {
    Actions.DuplicateFlatAdmitted();
    var t := Tables(Actions.ScenarioSlots, [Actions.BookingA, Actions.BookingB]);
    assert SameDate(t.slots, t.bookings[0], t.bookings[1]) && SameDate(t.slots, t.bookings[1], t.bookings[0]);
    ResaveBlockedByDuplicate(t, 0, 1, BookingForm("A", "101", "9876543210"));
    ResaveBlockedByDuplicate(t, 1, 0, BookingForm("B", "101", "9123456780"));
  }

  /** Moving B to the Mandal flat "000" is accepted even though it is shared. */
  lemma EditMandalAccepted()
    ensures Edit(Tables(EditSlots, EditBookings), 21, BookingForm("B", "000", "9123456780"), true).reply.Success?
  {
    assert FindBookingIndex(EditBookings, 21) == Some(1);
  }

  // ---------------------------------------------------------------------------
  // Deleting: `deleteBooking`
  // ---------------------------------------------------------------------------

  /** `deleteBooking(bookingId)` as one atomic step. When the store raises (the
      id is absent, or the store is down) the reply carries the store's message. */
  function Delete(t: Tables, bookingId: nat, storeUp: bool, storeError: string): (r: Outcome<()>)
    ensures r.reply.Success? <==> storeUp && FindBookingIndex(t.bookings, bookingId).Some?
    ensures r.reply.Failure? ==> r.after == t && r.reply.error == storeError
    ensures r.reply.Success? ==>
      var i := FindBookingIndex(t.bookings, bookingId).value;
      r.after == Tables(t.slots, t.bookings[..i] + t.bookings[i + 1..])
  {
    if !storeUp then Outcome(t, Failure(storeError))
    else match FindBookingIndex(t.bookings, bookingId)
      case None => Outcome(t, Failure(storeError))
      case Some(i) => Outcome(Tables(t.slots, t.bookings[..i] + t.bookings[i + 1..]), Success(()))
  }

  /** A deletion removes exactly the booking with that id and keeps every other one. */
  lemma DeleteRemovesExactly(t: Tables, bookingId: nat, storeUp: bool, storeError: string)
    requires BookingIdsUnique(t.bookings)
    ensures var r := Delete(t, bookingId, storeUp, storeError);
      r.reply.Success? ==> forall b :: b in r.after.bookings <==> b in t.bookings && b.id != bookingId
  {
    var r := Delete(t, bookingId, storeUp, storeError);
    if r.reply.Success? {
      var bs := t.bookings;
      var i := FindBookingIndex(bs, bookingId).value;
      var rest := bs[..i] + bs[i + 1..];
      RemoveAtMembers(bs, i, rest);
      forall b | b in bs && b.id != bookingId ensures b in rest {
        var p :| 0 <= p < |bs| && bs[p] == b;
      }
      forall b | b in rest ensures b.id != bookingId {
        var p :| 0 <= p < |bs| && p != i && bs[p] == b;
        if p < i { assert bs[p].id != bs[i].id; } else { assert bs[i].id != bs[p].id; }
      }
    }
  }

  /** What is left after removing position `i`: every other position, and only those. */
  lemma RemoveAtMembers(bs: seq<Booking>, i: nat, rest: seq<Booking>)
    requires i < |bs| && rest == bs[..i] + bs[i + 1..]
    ensures forall b :: b in rest ==> exists p :: 0 <= p < |bs| && p != i && bs[p] == b
    ensures forall p :: 0 <= p < |bs| && p != i ==> bs[p] in rest
  {
    assert forall k :: 0 <= k < |rest| ==> rest[k] == bs[if k < i then k else k + 1];
    forall b | b in rest ensures exists p :: 0 <= p < |bs| && p != i && bs[p] == b {
      var k :| 0 <= k < |rest| && rest[k] == b;
      var p := if k < i then k else k + 1;
      assert bs[p] == b;
    }
    forall p | 0 <= p < |bs| && p != i ensures bs[p] in rest {
      if p < i { assert rest[p] == bs[p]; } else { assert rest[p - 1] == bs[p]; }
    }
  }

  /** Deleting the same booking twice succeeds and then fails. */
  lemma DeleteTwiceFails(t: Tables, bookingId: nat, storeError: string, storeUp2: bool, storeError2: string)
    requires BookingIdsUnique(t.bookings)
    requires FindBookingIndex(t.bookings, bookingId).Some?
    ensures Delete(t, bookingId, true, storeError).reply.Success?
    ensures Delete(Delete(t, bookingId, true, storeError).after, bookingId, storeUp2, storeError2).reply.Failure?
  {
    var after := Delete(t, bookingId, true, storeError).after;
    DeleteRemovesExactly(t, bookingId, true, storeError);
    forall k | 0 <= k < |after.bookings| ensures after.bookings[k].id != bookingId {
      assert after.bookings[k] in after.bookings;
    }
  }

  /** Removing position `i` shifts every later row down by one. */
  lemma RemoveAtIndex(bs: seq<Booking>, i: nat, rest: seq<Booking>)
    requires i < |bs| && rest == bs[..i] + bs[i + 1..]
    ensures |rest| == |bs| - 1
    ensures forall k :: 0 <= k < |rest| ==> rest[k] == bs[if k < i then k else k + 1]
  {
  }

  /** Removing a row keeps unique ids, resolving slots and unique flats per date. */
  lemma RemoveAtKeepsKeys(t: Tables, i: nat)
    requires i < |t.bookings|
    ensures var after := Tables(t.slots, t.bookings[..i] + t.bookings[i + 1..]);
      && (TablesValid(t) ==> TablesValid(after))
      && (FlatsUniquePerDate(t) ==> FlatsUniquePerDate(after))
  {
    var bs := t.bookings;
    var rest := bs[..i] + bs[i + 1..];
    RemoveAtIndex(bs, i, rest);
    RemoveAtMembers(bs, i, rest);
  }

  /** Removing a row never raises a slot's count. */
  lemma RemoveAtKeepsCapacity(t: Tables, i: nat)
    requires i < |t.bookings|
    requires WithinCapacity(t)
    ensures WithinCapacity(Tables(t.slots, t.bookings[..i] + t.bookings[i + 1..]))
  {
    forall s | s in t.slots ensures CountFor(t.bookings[..i] + t.bookings[i + 1..], s.id) <= s.capacity {
      CountForRemove(t.bookings, i, s.id);
    }
  }

  /** A deletion keeps the keys, the foreign key and the id bound. */
  lemma DeletePreservesValidity(t: Tables, bookingId: nat, storeUp: bool, storeError: string, n: nat)
    requires TablesValid(t) && BookingIdsBelow(t.bookings, n)
    ensures TablesValid(Delete(t, bookingId, storeUp, storeError).after)
    ensures BookingIdsBelow(Delete(t, bookingId, storeUp, storeError).after.bookings, n)
  {
    var r := Delete(t, bookingId, storeUp, storeError);
    if r.reply.Success? {
      var i := FindBookingIndex(t.bookings, bookingId).value;
      RemoveAtKeepsKeys(t, i);
      RemoveAtMembers(t.bookings, i, r.after.bookings);
    }
  }

  /** A deletion keeps every slot within its capacity. */
  lemma DeletePreservesCapacity(t: Tables, bookingId: nat, storeUp: bool, storeError: string)
    requires WithinCapacity(t)
    ensures WithinCapacity(Delete(t, bookingId, storeUp, storeError).after)
  {
    var r := Delete(t, bookingId, storeUp, storeError);
    if r.reply.Success? {
      RemoveAtKeepsCapacity(t, FindBookingIndex(t.bookings, bookingId).value);
    }
  }

  /** A deletion keeps flats unique per date. */
  lemma DeletePreservesFlatsUnique(t: Tables, bookingId: nat, storeUp: bool, storeError: string)
    requires FlatsUniquePerDate(t)
    ensures FlatsUniquePerDate(Delete(t, bookingId, storeUp, storeError).after)
  {
    var r := Delete(t, bookingId, storeUp, storeError);
    if r.reply.Success? {
      RemoveAtKeepsKeys(t, FindBookingIndex(t.bookings, bookingId).value);
    }
  }

  // ---------------------------------------------------------------------------
  // Listing: `getAllBookings`, `orderBy: { createdAt: 'desc' }`
  // ---------------------------------------------------------------------------

  predicate NewestFirst(s: seq<Booking>) {
    forall i, j :: 0 <= i < j < |s| ==> s[i].createdAt >= s[j].createdAt
  }

  function InsertByCreation(x: Booking, s: seq<Booking>): (r: seq<Booking>)
    ensures multiset(r) == multiset(s) + multiset{x}
  {
    if s == [] then [x]
    else if x.createdAt >= s[0].createdAt then [x] + s
    else
      assert s == [s[0]] + s[1..];
      [s[0]] + InsertByCreation(x, s[1..])
  }

  function SortNewestFirst(s: seq<Booking>): (r: seq<Booking>)
    ensures multiset(r) == multiset(s)
  {
    if s == [] then []
    else
      assert s == [s[0]] + s[1..];
      InsertByCreation(s[0], SortNewestFirst(s[1..]))
  }

  lemma {:induction false} InsertByCreationSorted(x: Booking, s: seq<Booking>)
    requires NewestFirst(s)
    ensures NewestFirst(InsertByCreation(x, s))
  {
    if s != [] && x.createdAt < s[0].createdAt {
      var rest := InsertByCreation(x, s[1..]);
      InsertByCreationSorted(x, s[1..]);
      forall j | 0 <= j < |rest| ensures s[0].createdAt >= rest[j].createdAt {
        assert rest[j] in multiset(rest);
        if rest[j] != x {
          assert rest[j] in multiset(s[1..]);
          var k :| 0 <= k < |s[1..]| && s[1..][k] == rest[j];
          assert s[k + 1] == rest[j];
        }
      }
    }
  }

  lemma {:induction false} SortNewestFirstSorted(s: seq<Booking>)
    ensures NewestFirst(SortNewestFirst(s))
  {
    if s != [] {
      SortNewestFirstSorted(s[1..]);
      InsertByCreationSorted(s[0], SortNewestFirst(s[1..]));
    }
  }

  /** Each booking paired with the slot it references. */
  function WithSlots(slots: seq<Slot>, bookings: seq<Booking>): (r: seq<BookingWithSlot>)
    ensures |r| == |bookings|
    ensures forall k :: 0 <= k < |r| ==> r[k].booking == bookings[k]
    ensures forall k :: 0 <= k < |r| ==>
      && (r[k].slot.Some? ==> r[k].slot.value in slots && r[k].slot.value.id == bookings[k].slotId)
      && (r[k].slot.None? <==> forall s :: s in slots ==> s.id != bookings[k].slotId)
  {
    seq(|bookings|, k requires 0 <= k < |bookings| => BookingWithSlot(bookings[k], FindSlot(slots, bookings[k].slotId)))
  }

  /** The bookings of a list of rows, in order. */
  function BookingsIn(rows: seq<BookingWithSlot>): (r: seq<Booking>)
    ensures |r| == |rows|
    ensures forall k :: 0 <= k < |r| ==> r[k] == rows[k].booking
  {
    seq(|rows|, k requires 0 <= k < |rows| => rows[k].booking)
  }

  /** `getAllBookings`: every booking with its slot, newest first; an error when
      the store fails. */
  function GetAllBookings(t: Tables, storeUp: bool): (r: Reply<seq<BookingWithSlot>>)
    ensures !storeUp <==> r == Failure(FetchBookingsError)
    ensures r.Success? ==> NewestFirst(BookingsIn(r.value)) && multiset(BookingsIn(r.value)) == multiset(t.bookings)
    ensures r.Success? ==> forall k :: 0 <= k < |r.value| ==>
      && (r.value[k].slot.Some? ==> r.value[k].slot.value in t.slots && r.value[k].slot.value.id == r.value[k].booking.slotId)
      && (r.value[k].slot.None? <==> forall s :: s in t.slots ==> s.id != r.value[k].booking.slotId)
  {
    if !storeUp then Failure(FetchBookingsError)
    else
      SortNewestFirstSorted(t.bookings);
      var sorted := SortNewestFirst(t.bookings);
      var rows := WithSlots(t.slots, sorted);
      assert BookingsIn(rows) == sorted;
      Success(rows)
  }

  /** Under the foreign key every listed booking comes with its slot. */
  lemma GetAllBookingsSlotsResolve(t: Tables)
    requires TablesValid(t)
    ensures GetAllBookings(t, true).Success?
    ensures forall row :: row in GetAllBookings(t, true).value ==> row.slot.Some?
  {
    var rows := GetAllBookings(t, true).value;
    forall row | row in rows ensures row.slot.Some? {
      var k :| 0 <= k < |rows| && rows[k] == row;
      var b := BookingsIn(rows)[k];
      assert b in multiset(BookingsIn(rows));
      assert b in t.bookings;
    }
  }
}
