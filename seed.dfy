/** The seeding script: two nested loops that upsert the ten Navratri dates
    times the two Aarti labels into the slot table, keyed by (date, time). */
module Seed {
  import opened Types
  import opened Store
  import opened Database

  const NavratriDates: seq<string> := [
    "2025-09-22", "2025-09-23", "2025-09-24", "2025-09-25", "2025-09-26",
    "2025-09-27", "2025-09-28", "2025-09-29", "2025-09-30", "2025-10-01"
  ]

  const TimeSlots: seq<string> := [FirstAarti, SecondAarti]

  /** The (date, time) pairs in the order the nested loops visit them. */
  function SeedPairs(): (r: seq<(string, string)>)
    ensures |r| == |NavratriDates| * |TimeSlots|
    ensures forall i, j {:trigger NavratriDates[i], TimeSlots[j]} :: 0 <= i < |NavratriDates| && 0 <= j < |TimeSlots| ==> r[2 * i + j] == (NavratriDates[i], TimeSlots[j])
  {
    seq(20, k requires 0 <= k < 20 => (NavratriDates[k / 2], TimeSlots[k % 2]))
  }

  /** No date is listed twice: the last digits of the ten dates differ. */
  lemma DatesDistinct()
    ensures forall a, b :: 0 <= a < b < |NavratriDates| ==> NavratriDates[a] != NavratriDates[b]
  {
    forall a, b | 0 <= a < b < |NavratriDates| ensures NavratriDates[a] != NavratriDates[b] {
      assert NavratriDates[a][9] != NavratriDates[b][9];
    }
  }

  /** Two different positions of the visiting order hold different pairs. */
  lemma SeedPairAtDistinct(a: nat, b: nat)
    requires a < b < 20
    ensures SeedPairs()[a] != SeedPairs()[b]
  {
    var ps := SeedPairs();
    assert ps[a] == (NavratriDates[a / 2], TimeSlots[a % 2]);
    assert ps[b] == (NavratriDates[b / 2], TimeSlots[b % 2]);
    if a / 2 != b / 2 {
      DatesDistinct();
      assert NavratriDates[a / 2] != NavratriDates[b / 2];
    } else {
      assert a % 2 == 0 && b % 2 == 1;
      assert TimeSlots[0][0] != TimeSlots[1][0];
    }
  }

  /** The twenty pairs are pairwise distinct. */
  lemma SeedPairsDistinct()
    ensures forall a, b :: 0 <= a < b < |SeedPairs()| ==> SeedPairs()[a] != SeedPairs()[b]
  {
    forall a, b | 0 <= a < b < |SeedPairs()| ensures SeedPairs()[a] != SeedPairs()[b] {
      SeedPairAtDistinct(a, b);
    }
  }

  /** Upserting the pairs one after another, starting from catalogue `c`. */
  function SeedFrom(c: Catalogue, pairs: seq<(string, string)>, capacity: nat): Catalogue {
    if pairs == [] then c
    else
      var p := pairs[|pairs| - 1];
      UpsertStep(SeedFrom(c, pairs[..|pairs| - 1], capacity), p.0, p.1, capacity)
  }

  /** Seeding one more pair is one more upsert. */
  lemma SeedFromStep(c: Catalogue, pairs: seq<(string, string)>, k: nat, capacity: nat)
    requires k < |pairs|
    ensures SeedFrom(c, pairs[..k + 1], capacity) == UpsertStep(SeedFrom(c, pairs[..k], capacity), pairs[k].0, pairs[k].1, capacity)
  {
    assert pairs[..k + 1][..k] == pairs[..k];
  }

  /** After seeding, every pair has a slot. */
  lemma {:induction false} SeedCovers(c: Catalogue, pairs: seq<(string, string)>, capacity: nat)
    ensures forall p :: p in pairs ==> FindByKey(SeedFrom(c, pairs, capacity).slots, p.0, p.1).Some?
  {
    if pairs != [] {
      var prefix, last := pairs[..|pairs| - 1], pairs[|pairs| - 1];
      var mid := SeedFrom(c, prefix, capacity);
      SeedCovers(c, prefix, capacity);
      forall p | p in pairs ensures FindByKey(SeedFrom(c, pairs, capacity).slots, p.0, p.1).Some? {
        if p != last {
          assert p in prefix by {
            var k :| 0 <= k < |pairs| && pairs[k] == p;
            assert prefix[k] == p;
          }
          if FindByKey(mid.slots, last.0, last.1).None? {
            FindByKeyAppend(mid.slots, Slot(mid.nextId, last.0, last.1, capacity), p.0, p.1);
          }
        }
      }
    }
  }

  /** Seeding leaves the slots that were there as they were, and every slot it
      adds carries one of the pairs and the default capacity. */
  lemma {:induction false} SeedExtends(c: Catalogue, pairs: seq<(string, string)>, capacity: nat)
    ensures var r := SeedFrom(c, pairs, capacity);
      && |c.slots| <= |r.slots| && r.slots[..|c.slots|] == c.slots
      && forall k :: |c.slots| <= k < |r.slots| ==> (r.slots[k].date, r.slots[k].time) in pairs && r.slots[k].capacity == capacity
  {
    if pairs != [] {
      var prefix, last := pairs[..|pairs| - 1], pairs[|pairs| - 1];
      SeedExtends(c, prefix, capacity);
      var mid := SeedFrom(c, prefix, capacity);
      var r := SeedFrom(c, pairs, capacity);
      assert r == UpsertStep(mid, last.0, last.1, capacity);
      assert r.slots[..|mid.slots|] == mid.slots;
      assert forall q :: q in prefix ==> q in pairs;
      forall k | |c.slots| <= k < |r.slots|
        ensures (r.slots[k].date, r.slots[k].time) in pairs && r.slots[k].capacity == capacity
      {
        if k < |mid.slots| {
          assert r.slots[k] == mid.slots[k];
        } else {
          assert r.slots[k] == Slot(mid.nextId, last.0, last.1, capacity);
        }
      }
    }
  }

  /** When every pair is already present, seeding changes nothing. */
  lemma {:induction false} SeedNoOpWhenPresent(c: Catalogue, pairs: seq<(string, string)>, capacity: nat)
    requires forall p :: p in pairs ==> FindByKey(c.slots, p.0, p.1).Some?
    ensures SeedFrom(c, pairs, capacity) == c
  {
    if pairs != [] {
      var prefix := pairs[..|pairs| - 1];
      assert forall p :: p in prefix ==> p in pairs;
      SeedNoOpWhenPresent(c, prefix, capacity);
      assert pairs[|pairs| - 1] in pairs;
    }
  }

  /** Running the seeding twice leaves the same catalogue as running it once. */
  lemma SeedIdempotent(c: Catalogue, pairs: seq<(string, string)>, capacity: nat)
    ensures SeedFrom(SeedFrom(c, pairs, capacity), pairs, capacity) == SeedFrom(c, pairs, capacity)
  {
    SeedCovers(c, pairs, capacity);
    SeedNoOpWhenPresent(SeedFrom(c, pairs, capacity), pairs, capacity);
  }

  /** Seeding keeps slot ids and (date, time) keys unique. */
  lemma {:induction false} SeedPreservesKeys(c: Catalogue, pairs: seq<(string, string)>, capacity: nat)
    requires CatalogueValid(c)
    ensures CatalogueValid(SeedFrom(c, pairs, capacity))
  {
    if pairs != [] {
      var p := pairs[|pairs| - 1];
      SeedPreservesKeys(c, pairs[..|pairs| - 1], capacity);
      UpsertPreservesKeys(SeedFrom(c, pairs[..|pairs| - 1], capacity), p.0, p.1, capacity);
    }
  }

  /** After seeding, each of the pairs occurs exactly once. */
  lemma SeededOnce(c: Catalogue, pairs: seq<(string, string)>, capacity: nat)
    requires CatalogueValid(c)
    ensures forall p :: p in pairs ==> KeyCount(SeedFrom(c, pairs, capacity).slots, p.0, p.1) == 1
  {
    SeedCovers(c, pairs, capacity);
    SeedPreservesKeys(c, pairs, capacity);
    forall p | p in pairs ensures KeyCount(SeedFrom(c, pairs, capacity).slots, p.0, p.1) == 1 {
      PresentKeyOccursOnce(SeedFrom(c, pairs, capacity).slots, p.0, p.1);
    }
  }

  /** Seeding distinct, absent pairs adds one slot per pair. */
  lemma {:induction false} SeedFreshCount(c: Catalogue, pairs: seq<(string, string)>, capacity: nat)
    requires forall a, b :: 0 <= a < b < |pairs| ==> pairs[a] != pairs[b]
    requires forall p :: p in pairs ==> FindByKey(c.slots, p.0, p.1).None?
    ensures |SeedFrom(c, pairs, capacity).slots| == |c.slots| + |pairs|
  {
    if pairs != [] {
      var prefix, last := pairs[..|pairs| - 1], pairs[|pairs| - 1];
      assert forall p :: p in prefix ==> p in pairs;
      SeedFreshCount(c, prefix, capacity);
      SeedExtends(c, prefix, capacity);
      var mid := SeedFrom(c, prefix, capacity);
      assert last in pairs;
      assert last !in prefix by {
        forall n | 0 <= n < |prefix| ensures prefix[n] != last {
          assert prefix[n] == pairs[n];
        }
      }
      forall s | s in mid.slots ensures s.date != last.0 || s.time != last.1 {
        var k :| 0 <= k < |mid.slots| && mid.slots[k] == s;
        if k < |c.slots| {
          assert c.slots[k] == s;
        } else {
          assert (s.date, s.time) in prefix;
        }
      }
    }
  }

  /** Seeding an empty table creates exactly twenty slots, one per pair. */
  lemma SeedEmptyCreatesTwenty(firstId: nat, capacity: nat)
    ensures |SeedFrom(Catalogue([], firstId), SeedPairs(), capacity).slots| == 20
  {
    SeedPairsDistinct();
    SeedFreshCount(Catalogue([], firstId), SeedPairs(), capacity);
  }

  /** Everything the script promises about one full run, from any valid start. */
  lemma SeedOutcome(c: Catalogue, capacity: nat)
    requires CatalogueValid(c)
    ensures var r := SeedFrom(c, SeedPairs(), capacity);
      && CatalogueValid(r)
      && (forall p :: p in SeedPairs() ==> KeyCount(r.slots, p.0, p.1) == 1)
      && |c.slots| <= |r.slots| && r.slots[..|c.slots|] == c.slots
      && ((forall p :: p in SeedPairs() ==> FindByKey(c.slots, p.0, p.1).Some?) ==> r == c)
  {
    SeedPreservesKeys(c, SeedPairs(), capacity);
    SeededOnce(c, SeedPairs(), capacity);
    SeedExtends(c, SeedPairs(), capacity);
    if forall p :: p in SeedPairs() ==> FindByKey(c.slots, p.0, p.1).Some? {
      SeedNoOpWhenPresent(c, SeedPairs(), capacity);
    }
  }

  /** The script's `main`: for each date, for each time label, upsert the slot. */
  method SeedCatalogue(ledger: Ledger)
    requires ledger.Valid()
    modifies ledger
    ensures ledger.Valid()
    ensures ledger.SlotCatalogue() == SeedFrom(old(ledger.SlotCatalogue()), SeedPairs(), ledger.defaultCapacity)
    ensures ledger.bookings == old(ledger.bookings) && ledger.nextBookingId == old(ledger.nextBookingId)
  {
    ghost var start := ledger.SlotCatalogue();
    var pairs := SeedPairs();
    for i := 0 to |NavratriDates|
      invariant ledger.Valid()
      invariant ledger.SlotCatalogue() == SeedFrom(start, pairs[..2 * i], ledger.defaultCapacity)
      invariant ledger.bookings == old(ledger.bookings) && ledger.nextBookingId == old(ledger.nextBookingId)
    {
      var date := NavratriDates[i];
      for j := 0 to |TimeSlots|
        invariant ledger.Valid()
        invariant ledger.SlotCatalogue() == SeedFrom(start, pairs[..2 * i + j], ledger.defaultCapacity)
        invariant ledger.bookings == old(ledger.bookings) && ledger.nextBookingId == old(ledger.nextBookingId)
      {
        var time := TimeSlots[j];
        assert pairs[2 * i + j] == (date, time);
        SeedFromStep(start, pairs, 2 * i + j, ledger.defaultCapacity);
        ledger.UpsertSlot(date, time);
      }
    }
    assert pairs[..20] == pairs;
  }
}
