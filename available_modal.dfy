/** The "Show Available Slots" modal: it filters the listing down to the slots
    with room, groups them by date, and is opened by its trigger button and
    closed by the backdrop or the close button. */
module AvailableModal {
  import opened Types
  import opened SlotStatus
  import opened Grouping

  /** `slot.bookings.length < slot.capacity`. */
  predicate HasRoomLeft(v: SlotView) {
    |v.bookings| < v.capacity
  }

  /** `slots.filter(...)`: the slots with room, in input order. */
  function AvailableSlots(slots: seq<SlotView>): (r: seq<SlotView>)
    ensures forall v :: v in r <==> v in slots && HasRoomLeft(v)
    ensures |r| <= |slots|
  {
    if slots == [] then []
    else
      var init, last := slots[..|slots| - 1], slots[|slots| - 1];
      assert slots == init + [last];
      AvailableSlots(init) + (if HasRoomLeft(last) then [last] else [])
  }

  /** The filter keeps every slot with room as often as it occurs, and no other. */
  lemma {:induction false} AvailableSlotsCount(slots: seq<SlotView>, v: SlotView)
    ensures multiset(AvailableSlots(slots))[v] == if HasRoomLeft(v) then multiset(slots)[v] else 0
  {
    if slots != [] {
      var init, last := slots[..|slots| - 1], slots[|slots| - 1];
      assert slots == init + [last];
      AvailableSlotsCount(init, v);
    }
  }

  /** Filtering distributes over concatenation, so the input order is kept. */
  lemma {:induction false} AvailableSlotsAppend(a: seq<SlotView>, b: seq<SlotView>)
    ensures AvailableSlots(a + b) == AvailableSlots(a) + AvailableSlots(b)
  {
    if b == [] {
      assert a + b == a;
    } else {
      var init := b[..|b| - 1];
      assert (a + b)[..|a + b| - 1] == a + init;
      assert (a + b)[|a + b| - 1] == b[|b| - 1];
      AvailableSlotsAppend(a, init);
    }
  }

  /** No card in the modal carries the "Full" badge, and every card offers the booking link. */
  lemma ModalNeverShowsFull(slots: seq<SlotView>, v: SlotView)
    requires v in AvailableSlots(slots)
    ensures StatusText(|v.bookings|, v.capacity) != FullText
    ensures ShowsBookLink(|v.bookings|, v.capacity)
  {
  }

  /** "No Available Slots" is shown, that is the grouping has no keys, exactly
      when no slot of the listing has room. */
  lemma NoAvailableIff(slots: seq<SlotView>)
    ensures |DistinctDates(AvailableSlots(slots))| == 0 <==> forall v :: v in slots ==> !HasRoomLeft(v)
  {
    var avail := AvailableSlots(slots);
    if |DistinctDates(avail)| != 0 {
      var d := DistinctDates(avail)[0];
      DistinctDatesMembers(avail, d);
      var k :| 0 <= k < |avail| && avail[k].date == d;
      assert avail[k] in slots && HasRoomLeft(avail[k]);
    }
  }

  /** What the open modal shows: the header count and the groups in key order. */
  datatype ModalContent = ModalContent(count: nat, keys: seq<string>, groups: map<string, seq<SlotView>>)

  /** The modal's `isOpen` state over the slots it was given. */
  class SlotsModal {
    const slots: seq<SlotView>
    var isOpen: bool

    /** `useState(false)`: the modal starts closed. */
    constructor(slots: seq<SlotView>)
      ensures this.slots == slots && !isOpen
    {
      this.slots := slots;
      isOpen := false;
    }

    /** The trigger button's `setIsOpen(true)`. */
    method Open()
      modifies this
      ensures isOpen
    {
      isOpen := true;
    }

    /** The backdrop's and the close button's `setIsOpen(false)`. */
    method Close()
      modifies this
      ensures !isOpen
    {
      isOpen := false;
    }

    /** The modal's render: nothing while closed; otherwise the number of
        available slots and those slots grouped by date. */
    method Render() returns (shown: Option<ModalContent>)
      ensures shown.Some? <==> isOpen
      ensures shown.Some? ==>
        && shown.value.count == |AvailableSlots(slots)|
        && shown.value.keys == DistinctDates(AvailableSlots(slots))
        && (forall d :: d in shown.value.groups <==> d in shown.value.keys)
        && (forall d :: d in shown.value.groups ==> shown.value.groups[d] == OnDate(AvailableSlots(slots), d))
        && (forall d, v :: d in shown.value.groups && v in shown.value.groups[d] ==> v.date == d && v in slots && HasRoomLeft(v))
    {
      if !isOpen {
        return None;
      }
      var available := AvailableSlots(slots);
      var groups, keys := GroupByDate(available);
      shown := Some(ModalContent(|available|, keys, groups));
    }
  }
}
