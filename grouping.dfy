/** Grouping slots by date, as the home page's `slotsByDate` and the modal's
    `availableSlotsByDate` do: a `reduce` over the slot list that creates an
    empty list the first time a date is seen and pushes each slot onto the
    list of its date. A JavaScript object keeps string keys that are not
    integer-like in insertion order, and ISO date strings are such keys, so
    the groups are listed in the order their dates first appear. */
module Grouping {
  import opened Types

  /** The slots on `date`, in input order. */
  function OnDate(slots: seq<SlotView>, date: string): (r: seq<SlotView>)
    ensures forall v :: v in r <==> v in slots && v.date == date
    ensures |r| <= |slots|
  {
    if slots == [] then []
    else
      var last := slots[|slots| - 1];
      assert forall v :: v in slots <==> v in slots[..|slots| - 1] || v == last by {
        assert slots == slots[..|slots| - 1] + [last];
      }
      OnDate(slots[..|slots| - 1], date) + (if last.date == date then [last] else [])
  }

  /** The dates of `slots`, each once, in order of first appearance. */
  function DistinctDates(slots: seq<SlotView>): (r: seq<string>)
    ensures forall a, b :: 0 <= a < b < |r| ==> r[a] != r[b]
    ensures |r| <= |slots|
  {
    if slots == [] then []
    else
      var init, last := slots[..|slots| - 1], slots[|slots| - 1];
      var prev := DistinctDates(init);
      if last.date in prev then prev else prev + [last.date]
  }

  /** A date is listed exactly when some slot carries it. */
  lemma {:induction false} DistinctDatesMembers(slots: seq<SlotView>, d: string)
    ensures d in DistinctDates(slots) <==> exists k :: 0 <= k < |slots| && slots[k].date == d
  {
    if slots != [] {
      var init := slots[..|slots| - 1];
      DistinctDatesMembers(init, d);
      assert forall k :: 0 <= k < |init| ==> slots[k] == init[k];
    }
  }

  /** Filtering distributes over concatenation, so every group keeps the
      relative order the slots had in the input. */
  lemma {:induction false} OnDateAppend(a: seq<SlotView>, b: seq<SlotView>, date: string)
    ensures OnDate(a + b, date) == OnDate(a, date) + OnDate(b, date)
  {
    if b == [] {
      assert a + b == a;
    } else {
      var init := b[..|b| - 1];
      assert (a + b)[..|a + b| - 1] == a + init;
      assert (a + b)[|a + b| - 1] == b[|b| - 1];
      OnDateAppend(a, init, date);
    }
  }

  /** A slot occurs in its own date's group as often as in the input, and in no other group. */
  lemma {:induction false} OnDateCount(slots: seq<SlotView>, date: string, v: SlotView)
    ensures multiset(OnDate(slots, date))[v] == if v.date == date then multiset(slots)[v] else 0
  {
    if slots != [] {
      var init, last := slots[..|slots| - 1], slots[|slots| - 1];
      assert slots == init + [last];
      OnDateCount(init, date, v);
    }
  }

  /** The groups laid out one after another in key order, as the page renders them. */
  function Listing(dates: seq<string>, slots: seq<SlotView>): seq<SlotView> {
    if dates == [] then [] else OnDate(slots, dates[0]) + Listing(dates[1..], slots)
  }

  lemma {:induction false} ListingCount(dates: seq<string>, slots: seq<SlotView>, v: SlotView)
    requires forall a, b :: 0 <= a < b < |dates| ==> dates[a] != dates[b]
    ensures multiset(Listing(dates, slots))[v] == if v.date in dates then multiset(slots)[v] else 0
  {
    if dates != [] {
      OnDateCount(slots, dates[0], v);
      ListingCount(dates[1..], slots, v);
      assert v.date in dates <==> v.date == dates[0] || v.date in dates[1..];
      if v.date == dates[0] {
        assert v.date !in dates[1..] by {
          forall k | 0 <= k < |dates[1..]| ensures dates[1..][k] != v.date {
            assert dates[1..][k] == dates[k + 1];
          }
        }
      }
    }
  }

  /** Listing every group in key order shows every slot exactly once: the
      listing is a permutation of the input. */
  lemma EverySlotListedOnce(slots: seq<SlotView>)
    ensures multiset(Listing(DistinctDates(slots), slots)) == multiset(slots)
  {
    var dates := DistinctDates(slots);
    forall v ensures multiset(Listing(dates, slots))[v] == multiset(slots)[v] {
      ListingCount(dates, slots, v);
      if v in slots {
        var k :| 0 <= k < |slots| && slots[k] == v;
        DistinctDatesMembers(slots, v.date);
      }
    }
  }

  /** A date no slot carries has an empty group. */
  lemma {:induction false} OnDateAbsent(slots: seq<SlotView>, date: string)
    requires date !in DistinctDates(slots)
    ensures OnDate(slots, date) == []
  {
    if slots != [] {
      assert slots[|slots| - 1].date != date;
      OnDateAbsent(slots[..|slots| - 1], date);
    }
  }

  /** One more slot of the input: its date joins the key order if it is new. */
  lemma DatesStep(slots: seq<SlotView>, i: nat)
    requires i < |slots|
    ensures DistinctDates(slots[..i + 1]) ==
      if slots[i].date in DistinctDates(slots[..i]) then DistinctDates(slots[..i])
      else DistinctDates(slots[..i]) + [slots[i].date]
  {
    assert slots[..i + 1][..i] == slots[..i];
  }

  /** The dictionary with an empty list opened under `date` if it had none. */
  function Opened(groups: map<string, seq<SlotView>>, date: string): (r: map<string, seq<SlotView>>)
    ensures date in r && r.Keys == groups.Keys + {date}
    ensures forall d :: d in groups ==> r[d] == groups[d]
    ensures date !in groups ==> r[date] == []
  {
    if date in groups then groups else groups[date := []]
  }

  /** The dictionary with `slot` pushed onto the list under its date. */
  function Pushed(groups: map<string, seq<SlotView>>, slot: SlotView): (r: map<string, seq<SlotView>>)
    requires slot.date in groups
    ensures r.Keys == groups.Keys
    ensures r[slot.date] == groups[slot.date] + [slot]
    ensures forall d :: d in groups && d != slot.date ==> r[d] == groups[d]
  {
    groups[slot.date := groups[slot.date] + [slot]]
  }

  /** The dictionary the `reduce` builds from `slots`. */
  function GroupsOf(slots: seq<SlotView>): map<string, seq<SlotView>>
  {
    if slots == [] then map[]
    else
      var last := slots[|slots| - 1];
      Pushed(Opened(GroupsOf(slots[..|slots| - 1]), last.date), last)
  }

  /** The dictionary has a key for exactly the dates that occur, and under each
      one the slots of that date in input order. */
  lemma {:induction false} GroupsOfCharacterised(slots: seq<SlotView>, d: string)
    ensures d in GroupsOf(slots) <==> d in DistinctDates(slots)
    ensures d in GroupsOf(slots) ==> GroupsOf(slots)[d] == OnDate(slots, d)
  {
    if slots != [] {
      var init := slots[..|slots| - 1];
      GroupsOfCharacterised(init, d);
      if d !in GroupsOf(init) {
        OnDateAbsent(init, d);
      }
    }
  }

  /** The `reduce` into a dictionary of lists. `keys` is the dictionary's key
      order; `groups[d]` is the list pushed to under `d`. */
  method GroupByDate(slots: seq<SlotView>) returns (groups: map<string, seq<SlotView>>, keys: seq<string>)
    ensures keys == DistinctDates(slots)
    ensures forall d :: d in groups <==> d in keys
    ensures forall d :: d in groups ==> groups[d] == OnDate(slots, d)
  {
    groups, keys := map[], [];
    for i := 0 to |slots|
      invariant keys == DistinctDates(slots[..i])
      invariant groups == GroupsOf(slots[..i])
    {
      var slot := slots[i];
      GroupsOfCharacterised(slots[..i], slot.date);
      DatesStep(slots, i);
      assert slots[..i + 1][..i] == slots[..i];
      if slot.date !in groups {
        groups := groups[slot.date := []];
        keys := keys + [slot.date];
      }
      groups := groups[slot.date := groups[slot.date] + [slot]];
    }
    assert slots[..|slots|] == slots;
    forall d ensures d in groups <==> d in keys {
      GroupsOfCharacterised(slots, d);
    }
    forall d | d in groups ensures groups[d] == OnDate(slots, d) {
      GroupsOfCharacterised(slots, d);
    }
  }
}
