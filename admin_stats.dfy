/** The admin panel's figures over the slot listing it receives: the flattened
    booking table (`allBookings`) and the "Available", "Partially Booked" and
    "Total Bookings" counts. */
module AdminStats {
  import opened Types
  import opened Store
  import opened Actions
  import opened SlotStatus

  /** A row of the admin table: a booking with its slot's date, time and capacity. */
  datatype AdminRow = AdminRow(booking: Booking, slotDate: string, slotTime: string, slotCapacity: nat)

  function RowsOf(v: SlotView): (r: seq<AdminRow>)
    ensures |r| == |v.bookings|
    ensures forall k :: 0 <= k < |r| ==> r[k] == AdminRow(v.bookings[k], v.date, v.time, v.capacity)
  {
    seq(|v.bookings|, k requires 0 <= k < |v.bookings| => AdminRow(v.bookings[k], v.date, v.time, v.capacity))
  }

  /** `slots.flatMap(slot => slot.bookings.map(...))`. */
  function AllBookings(slots: seq<SlotView>): seq<AdminRow> {
    if slots == [] then [] else RowsOf(slots[0]) + AllBookings(slots[1..])
  }

  /** The sum of the slots' booking counts. */
  function TotalBookings(slots: seq<SlotView>): nat {
    if slots == [] then 0 else |slots[0].bookings| + TotalBookings(slots[1..])
  }

  /** The flattened table has one row per booking of every slot, and each row
      carries the date, time and capacity of the slot it came from. */
  lemma {:induction false} AllBookingsRows(slots: seq<SlotView>)
    ensures |AllBookings(slots)| == TotalBookings(slots)
    ensures forall row :: row in AllBookings(slots) <==>
      exists v :: v in slots && row.booking in v.bookings && row == AdminRow(row.booking, v.date, v.time, v.capacity)
  {
    if slots != [] {
      AllBookingsRows(slots[1..]);
      var v := slots[0];
      forall row | row in AllBookings(slots)
        ensures exists w :: w in slots && row.booking in w.bookings && row == AdminRow(row.booking, w.date, w.time, w.capacity)
      {
        if row in RowsOf(v) {
          var k :| 0 <= k < |RowsOf(v)| && RowsOf(v)[k] == row;
          assert row.booking == v.bookings[k];
        } else {
          var w :| w in slots[1..] && row.booking in w.bookings && row == AdminRow(row.booking, w.date, w.time, w.capacity);
          assert w in slots;
        }
      }
      forall row: AdminRow, w: SlotView | w in slots && row.booking in w.bookings && row == AdminRow(row.booking, w.date, w.time, w.capacity)
        ensures row in AllBookings(slots)
      {
        if w == v {
          var k :| 0 <= k < |v.bookings| && v.bookings[k] == row.booking;
          assert RowsOf(v)[k] == row;
        } else {
          var n :| 0 <= n < |slots| && slots[n] == w;
          assert slots[1..][n - 1] == w;
        }
      }
    }
  }

  // ---------------------------------------------------------------------------
  // "Total Bookings" equals the number of rows of the Booking table
  // ---------------------------------------------------------------------------

  /** The slots' counts over `bookings`, added up. */
  function SumCounts(slots: seq<Slot>, bookings: seq<Booking>): nat {
    if slots == [] then 0 else CountFor(bookings, slots[0].id) + SumCounts(slots[1..], bookings)
  }

  /** How many slots carry the id. */
  function Hits(slots: seq<Slot>, id: nat): nat {
    if slots == [] then 0 else (if slots[0].id == id then 1 else 0) + Hits(slots[1..], id)
  }

  lemma {:induction false} SumCountsAppend(a: seq<Slot>, b: seq<Slot>, bookings: seq<Booking>)
    ensures SumCounts(a + b, bookings) == SumCounts(a, bookings) + SumCounts(b, bookings)
  {
    if a == [] {
      assert a + b == b;
    } else {
      assert (a + b)[1..] == a[1..] + b;
      SumCountsAppend(a[1..], b, bookings);
    }
  }

  /** Taking one slot out of the list takes its count out of the sum. */
  lemma SumCountsRemoveAt(b: seq<Slot>, k: nat, bookings: seq<Booking>)
    requires k < |b|
    ensures SumCounts(b, bookings) == CountFor(bookings, b[k].id) + SumCounts(b[..k] + b[k + 1..], bookings)
  {
    assert b == b[..k] + [b[k]] + b[k + 1..];
    SumCountsAppend(b[..k] + [b[k]], b[k + 1..], bookings);
    SumCountsAppend(b[..k], [b[k]], bookings);
    SumCountsAppend(b[..k], b[k + 1..], bookings);
  }

  /** Taking the same element out of two permutations of each other leaves
      two permutations of each other. */
  lemma RemoveSame(a: seq<Slot>, b: seq<Slot>, k: nat)
    requires multiset(a) == multiset(b)
    requires a != [] && k < |b| && b[k] == a[0]
    ensures multiset(a[1..]) == multiset(b[..k] + b[k + 1..])
  {
    assert b == b[..k] + [b[k]] + b[k + 1..];
    assert a == [a[0]] + a[1..];
    calc {
      multiset(b[..k] + b[k + 1..]);
      multiset(b[..k]) + multiset(b[k + 1..]);
      multiset(b) - multiset{a[0]};
      multiset(a) - multiset{a[0]};
      multiset(a[1..]);
    }
  }

  /** Reordering the slots does not change the sum. */
  lemma {:induction false} SumCountsPermutation(a: seq<Slot>, b: seq<Slot>, bookings: seq<Booking>)
    requires multiset(a) == multiset(b)
    ensures SumCounts(a, bookings) == SumCounts(b, bookings)
    decreases |a|
  {
    if a != [] {
      assert a[0] in multiset(b);
      var k :| 0 <= k < |b| && b[k] == a[0];
      RemoveSame(a, b, k);
      SumCountsPermutation(a[1..], b[..k] + b[k + 1..], bookings);
      SumCountsRemoveAt(b, k, bookings);
    }
  }

  /** One more booking adds one to the count of every slot carrying its slot id. */
  lemma {:induction false} SumCountsCons(slots: seq<Slot>, b: Booking, bookings: seq<Booking>)
    ensures SumCounts(slots, [b] + bookings) == Hits(slots, b.slotId) + SumCounts(slots, bookings)
  {
    if slots != [] {
      assert ([b] + bookings)[1..] == bookings;
      SumCountsCons(slots[1..], b, bookings);
    }
  }

  /** With unique slot ids, an id that resolves is carried by exactly one slot. */
  lemma {:induction false} HitsOne(slots: seq<Slot>, id: nat)
    requires SlotIdsUnique(slots)
    requires FindSlot(slots, id).Some?
    ensures Hits(slots, id) == 1
  {
    if slots[0].id == id {
      HitsNone(slots[1..], id);
    } else {
      HitsOne(slots[1..], id);
    }
  }

  lemma {:induction false} HitsNone(slots: seq<Slot>, id: nat)
    requires forall s :: s in slots ==> s.id != id
    ensures Hits(slots, id) == 0
  {
    if slots != [] {
      assert slots[0] in slots;
      HitsNone(slots[1..], id);
    }
  }

  /** When every booking's slot exists and slot ids are unique, the counts add
      up to the number of bookings. */
  lemma {:induction false} SumCountsTotal(slots: seq<Slot>, bookings: seq<Booking>)
    requires SlotIdsUnique(slots)
    requires forall b :: b in bookings ==> FindSlot(slots, b.slotId).Some?
    ensures SumCounts(slots, bookings) == |bookings|
  {
    if bookings == [] {
      SumCountsEmpty(slots);
    } else {
      assert bookings == [bookings[0]] + bookings[1..];
      SumCountsCons(slots, bookings[0], bookings[1..]);
      HitsOne(slots, bookings[0].slotId);
      SumCountsTotal(slots, bookings[1..]);
    }
  }

  lemma {:induction false} SumCountsEmpty(slots: seq<Slot>)
    ensures SumCounts(slots, []) == 0
  {
    if slots != [] {
      SumCountsEmpty(slots[1..]);
    }
  }

  lemma {:induction false} TotalIsSumCounts(views: seq<SlotView>, bookings: seq<Booking>)
    requires forall k :: 0 <= k < |views| ==> views[k].bookings == BookingsOf(bookings, views[k].id)
    ensures TotalBookings(views) == SumCounts(SlotsOf(views), bookings)
  {
    if views != [] {
      assert SlotsOf(views)[1..] == SlotsOf(views[1..]);
      TotalIsSumCounts(views[1..], bookings);
    }
  }

  /** The "Total Bookings" figure over the listing `getAllSlots` returns equals
      the number of rows of the Booking table. */
  lemma TotalBookingsMatchesTable(t: Tables)
    requires TablesValid(t)
    ensures |AllBookings(GetAllSlots(t, true))| == |t.bookings|
  {
    var views := GetAllSlots(t, true);
    AllBookingsRows(views);
    TotalIsSumCounts(views, t.bookings);
    SumCountsPermutation(SlotsOf(views), t.slots, t.bookings);
    SumCountsTotal(t.slots, t.bookings);
  }

  // ---------------------------------------------------------------------------
  // "Available" and "Partially Booked"
  // ---------------------------------------------------------------------------

  /** `slots.filter(slot => slot.bookings.length === 0).length`. */
  function AvailableCount(slots: seq<SlotView>): nat {
    if slots == [] then 0 else (if |slots[0].bookings| == 0 then 1 else 0) + AvailableCount(slots[1..])
  }

  /** `slots.filter(slot => 0 < slot.bookings.length < slot.capacity).length`. */
  function PartialCount(slots: seq<SlotView>): nat {
    if slots == [] then 0
    else (if 0 < |slots[0].bookings| < slots[0].capacity then 1 else 0) + PartialCount(slots[1..])
  }

  /** The slots whose badge reads `text`. */
  function BadgeCount(slots: seq<SlotView>, text: string): nat {
    if slots == [] then 0
    else (if StatusText(|slots[0].bookings|, slots[0].capacity) == text then 1 else 0) + BadgeCount(slots[1..], text)
  }

  /** The slots with a "Booked n/c" badge. */
  function BookedBadgeCount(slots: seq<SlotView>): nat {
    if slots == [] then 0
    else (if ParseBooked(StatusText(|slots[0].bookings|, slots[0].capacity)).Some? then 1 else 0) + BookedBadgeCount(slots[1..])
  }

  /** The two figures count the slots whose cards read "Available" and
      "Booked n/c"; with the "Full" cards they account for every slot. */
  lemma {:induction false} StatsMatchBadges(slots: seq<SlotView>)
    ensures AvailableCount(slots) == BadgeCount(slots, AvailableText)
    ensures PartialCount(slots) == BookedBadgeCount(slots)
    ensures AvailableCount(slots) + PartialCount(slots) + BadgeCount(slots, FullText) == |slots|
  {
    if slots != [] {
      StatsMatchBadges(slots[1..]);
    }
  }
}
