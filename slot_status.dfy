/** The status helpers the home page and the available-slots modal render for
    each slot card: the badge text, the badge and dot colours, the "full" test
    that gates the booking link, and the time label of an Aarti. The page and
    the modal define the same helpers twice; they are modelled once here. */
module SlotStatus {
  import opened Types
  import opened Text
  import opened Store
  import opened Actions

  const AvailableText: string := "Available"
  const FullText: string := "Full"
  const BookedPrefix: string := "Booked "

  const GreenBadge: string := "bg-green-100 text-green-800 border-green-200"
  const YellowBadge: string := "bg-yellow-100 text-yellow-800 border-yellow-200"
  const RedBadge: string := "bg-red-100 text-red-800 border-red-200"

  const GreenDot: string := "bg-green-500"
  const YellowDot: string := "bg-yellow-500"
  const RedDot: string := "bg-red-500"

  const FirstAartiHours: string := "6:00 PM - 7:00 PM"
  const SecondAartiHours: string := "7:00 PM - 8:00 PM"

  // ---------------------------------------------------------------------------
  // Reading a "Booked n/c" badge back
  // ---------------------------------------------------------------------------

  predicate AllDigits(s: string) {
    forall k :: 0 <= k < |s| ==> IsDigit(s[k])
  }

  /** The position of the first '/' in `s`. */
  function SlashIndex(s: string): (r: Option<nat>)
    ensures r.Some? ==> r.value < |s| && s[r.value] == '/' && forall k :: 0 <= k < r.value ==> s[k] != '/'
    ensures r.None? ==> forall k :: 0 <= k < |s| ==> s[k] != '/'
  {
    if s == [] then None
    else if s[0] == '/' then Some(0)
    else match SlashIndex(s[1..])
      case None => None
      case Some(k) => Some(k + 1)
  }

  /** The count and capacity a "Booked n/c" badge reports, if `s` is one. */
  function ParseBooked(s: string): Option<(nat, nat)> {
    if |s| < |BookedPrefix| || s[..|BookedPrefix|] != BookedPrefix then None
    else
      var rest := s[|BookedPrefix|..];
      match SlashIndex(rest)
      case None => None
      case Some(k) =>
        if 0 < k && k + 1 < |rest| && AllDigits(rest[..k]) && AllDigits(rest[k + 1..])
        then Some((DigitsValue(rest[..k]), DigitsValue(rest[k + 1..])))
        else None
  }

  /** The badge text of a partially booked slot, `Booked ${bookedCount}/${capacity}`. */
  function BookedText(n: nat, c: nat): string {
    BookedPrefix + NatToString(n) + "/" + NatToString(c)
  }

  /** The badge reports exactly the count and the capacity it was built from. */
  lemma BookedTextRoundTrip(n: nat, c: nat)
    ensures ParseBooked(BookedText(n, c)) == Some((n, c))
  {
    var a, b := NatToString(n), NatToString(c);
    var s := BookedText(n, c);
    var rest := a + "/" + b;
    assert s == BookedPrefix + rest;
    assert s[..|BookedPrefix|] == BookedPrefix;
    assert s[|BookedPrefix|..] == rest;
    assert rest[|a|] == '/';
    assert forall k :: 0 <= k < |a| ==> rest[k] == a[k];
    assert SlashIndex(rest) == Some(|a|) by {
      SlashIndexAfterDigits(a, b);
    }
    assert rest[..|a|] == a;
    assert rest[|a| + 1..] == b;
    NatToStringRoundTrip(n);
    NatToStringRoundTrip(c);
  }

  lemma {:induction false} SlashIndexAfterDigits(a: string, b: string)
    requires AllDigits(a)
    ensures SlashIndex(a + "/" + b) == Some(|a|)
  {
    if a != [] {
      assert (a + "/" + b)[1..] == a[1..] + "/" + b;
      SlashIndexAfterDigits(a[1..], b);
    }
  }

  // ---------------------------------------------------------------------------
  // Status helpers
  // ---------------------------------------------------------------------------

  /** `getStatusText(bookedCount, capacity)`: the badge text on a slot card. */
  function StatusText(n: nat, c: nat): (r: string)
    ensures r == AvailableText <==> n == 0
    ensures r == FullText <==> 0 < n && c <= n
    ensures ParseBooked(r) == (if 0 < n < c then Some((n, c)) else None)
  {
    if n == 0 then AvailableText
    else if n < c then
      BookedTextRoundTrip(n, c);
      BookedText(n, c)
    else FullText
  }

  /** `getStatusColor(bookedCount, capacity)`: the badge colour takes the same
      three branches as the badge text. */
  function StatusColor(n: nat, c: nat): (r: string)
    ensures r == GreenBadge <==> StatusText(n, c) == AvailableText
    ensures r == YellowBadge <==> ParseBooked(StatusText(n, c)).Some?
    ensures r == RedBadge <==> StatusText(n, c) == FullText
  {
    if n == 0 then GreenBadge
    else if n < c then YellowBadge
    else RedBadge
  }

  /** The status dot in the corner of a home-page card: the same three branches again. */
  function StatusDot(n: nat, c: nat): (r: string)
    ensures r == GreenDot <==> StatusColor(n, c) == GreenBadge
    ensures r == YellowDot <==> StatusColor(n, c) == YellowBadge
    ensures r == RedDot <==> StatusColor(n, c) == RedBadge
  {
    if n == 0 then GreenDot
    else if n < c then YellowDot
    else RedDot
  }

  /** `isSlotFull(bookedCount, capacity)`. */
  predicate IsSlotFull(n: nat, c: nat) {
    n >= c
  }

  /** For a slot with room for at least one booking, "full" and the "Full"
      badge agree; a zero-capacity slot is full yet shows "Available". */
  lemma FullIffStatusFull(n: nat, c: nat)
    ensures c >= 1 ==> (IsSlotFull(n, c) <==> StatusText(n, c) == FullText)
    ensures c == 0 ==> IsSlotFull(n, c) && (n == 0 ==> StatusText(n, c) == AvailableText)
  {
  }

  /** The "Book This Slot" link is rendered exactly when the slot is not full. */
  predicate ShowsBookLink(n: nat, c: nat) {
    !IsSlotFull(n, c)
  }

  /** A card of the listing shows the booking link exactly when `bookSlot`
      would admit a booking into that slot (given a working store). */
  lemma BookLinkIffAdmitted(t: Tables, v: SlotView)
    requires SlotIdsUnique(t.slots)
    requires v in GetAllSlots(t, true)
    ensures ShowsBookLink(|v.bookings|, v.capacity) <==> HasRoom(t, v.id)
  {
    var r := GetAllSlots(t, true);
    var k :| 0 <= k < |r| && r[k] == v;
    assert SlotsOf(r)[k] == SlotOf(v);
    assert SlotOf(v) in multiset(t.slots) by {
      assert SlotOf(v) in multiset(SlotsOf(r));
    }
    FindSlotFindsMember(t.slots, SlotOf(v));
  }

  /** The hours printed under an Aarti in the modal. */
  function TimeLabel(time: string): (r: string)
    ensures r == FirstAartiHours <==> time == FirstAarti
    ensures r == SecondAartiHours <==> time != FirstAarti
  {
    if time == FirstAarti then FirstAartiHours else SecondAartiHours
  }

  /** The listing's order puts "First Aarti" before "Second Aarti" on each date,
      because the labels compare that way character by character. */
  lemma FirstBeforeSecond()
    ensures LexLt(FirstAarti, SecondAarti)
  {
    assert FirstAarti[0] == 'F' && SecondAarti[0] == 'S';
  }
}
