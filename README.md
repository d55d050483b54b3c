# Aarti slot booking ledger

This project models the booking ledger of a community Aarti booking portal. It
covers the two tables the portal keeps:

- the AartiSlot table: id, date, time label, capacity;
- the Booking table: id, slot, name, flat, phone, creation time.

It models the server actions that read and write those tables:

- `bookSlot`, `getSlotById` and `getAllSlots` in `lib/actions.ts`;
- `updateBooking`, `deleteBooking` and `getAllBookings` in `lib/admin-actions.ts`.

It also models the pure rules and the small state machines of the pages that
sit on top of the tables:

- the status badge, the "full" test and the booking-link gate on the home page;
- the available-slots modal: its filter, its grouping by date and its open/closed state;
- the date-by-Aarti pivot of the schedule page;
- the admin panel: its password gate, the edit form with its phone filter and
  pre-submit checks, the delete handler, and the statistics;
- the seeding script that upserts the 10 × 2 slot catalogue keyed by (date, time).

## Layout

The project has one module per file:

- `Types` (`types.dfy`): the table rows, the slot view the pages receive, and the
  `{ success, error }` reply.
- `Text` (`text.dfy`): the `\D` digit filter, JavaScript's `trim` whitespace,
  decimal rendering of counts, and the character-code order the store is
  assumed to sort strings by (see "Left out").
- `Store` (`store.dfy`): the lookups (`findUnique`, the `bookings` relation, the
  `date_time` key) and the table invariants:
  - unique ids and keys;
  - every booking points at an existing slot;
  - capacity;
  - flats unique per date, except "000".
- `Actions` and `AdminActions`: each server action as one atomic step on a
  `Tables` value (`Book`, `Edit`, `Delete`), with lemmas about what each step
  preserves.
- `Database`: the class `Ledger`, whose fields are the two tables and the id
  generators. Its methods `BookSlot`, `UpdateBooking`, `DeleteBooking` and
  `UpsertSlot` change those fields and are proved to match the step functions.
- `Seed`: the nested loops of the seeding script, as a method over the ledger
  and as the fold `SeedFrom` it is proved against.
- `SlotStatus`, `Grouping`, `AvailableModal`, `Schedule`, `AdminStats` and
  `AdminPanel`: the page rules. A `reduce` that mutates its accumulator
  (`slotsByDate`, the schedule pivot) is a method with a loop, proved against a
  fold function.
  - `SlotsModal` (in `AvailableModal`) and `Panel` (in `AdminPanel`) are classes
    holding the components' state.

The environment enters as parameters:

- A failing store is the `storeUp` parameter.
- The message the store raises on delete is the `storeError` parameter.
- The clock is the `now` parameter.
- The configured admin password is a constructor parameter.
- The answer to the delete confirmation dialog is the `confirmed` parameter.

### Where the code departs from the intended design

The model follows the code. In three places the code does less than the
booking rules the portal is meant to enforce:

- **`bookSlot` does not check flats.** It rejects only a missing slot and a full
  slot. A second booking of the same flat on the same date is admitted.
  `Actions.DuplicateFlatAdmitted` shows this on a concrete pair of slots: the
  tables satisfy `FlatsUniquePerDate` before the booking and do not after it.
  Only `updateBooking` enforces the one-flat-per-date rule.
  - As a consequence, an admitted duplicate blocks later edits. Once two
    bookings on one date share a flat other than "000", `updateBooking`
    refuses to save either of them with that flat, even when nothing else
    changes: each search finds the other booking.
    `AdminActions.ResaveBlockedByDuplicate` proves this in general.
    `AdminActions.AdmittedDuplicateBlocksResave` shows it on the state
    `bookSlot` leaves in the scenario above.
- **`bookSlot` and `updateBooking` do not validate input.** Name, flat and phone
  are stored as given. The 10-digit phone check and the blank-flat check run
  only in the admin panel's browser code (`AdminPanel.PreSubmitCheck`).
- **`deleteBooking` has no "not found" reply of its own.** An absent id makes the
  store raise, and the reply carries the store's message.

## Model

| member | source | states |
|---|---|---|
| Actions.Book | lib/actions.ts:60-103 | Succeeds exactly when the store is up, the slot exists and its count is below its capacity. The errors, in the code's order: "Failed to book slot. Please try again." when the store fails, "Slot not found", then "Slot Full". A failure leaves the tables unchanged. A success appends exactly one booking, carrying the slot id, the form's name, flat and phone, a fresh id and the creation time; the slots and all other bookings are unchanged |
| Actions.BookCounts | lib/actions.ts:80-92 | A successful admission raises the booked slot's count by one. No other slot's count changes |
| Actions.BookPreservesCapacity | lib/actions.ts:80-92 | If every slot holds at most its capacity before an admission, it still does after |
| Actions.BookPreservesValidity | lib/actions.ts:70-92 | Admission with a fresh id keeps ids unique and every booking pointing at an existing slot |
| Actions.DuplicateFlatAdmitted | lib/actions.ts:69-92 | Flat "101" is already booked on a date. A second "101" booking into the other slot of that date is admitted, and flats stop being unique on that date |
| Actions.FullSlotRefused | lib/actions.ts:80-82 | A third booking into a capacity-2 slot holding two bookings gets "Slot Full" and changes nothing |
| Actions.SortSlotsSorted | lib/actions.ts:27-30 | The slot order is by date ascending, then by time label ascending |
| Actions.GetAllSlots | lib/actions.ts:20-43 | Returns [] when the store fails. Otherwise it returns a permutation of the slot table, sorted by date and then time label, with each slot carrying exactly the bookings that reference it |
| Actions.GetSlotById | lib/actions.ts:45-58 | Fails with "Failed to fetch slot" exactly when the store fails. Returns null exactly when no slot has the id. Otherwise returns that slot with its bookings |
| AdminActions.FindFlatClash | lib/admin-actions.ts:54-64 | Finds a booking other than the one edited whose flat and slot date match. It returns None exactly when no such booking exists |
| AdminActions.Edit | lib/admin-actions.ts:36-91 | Succeeds exactly when the store is up, the booking exists, and either the new flat is "000" or the booking's slot resolves and no other booking on that date has the flat. Flat "000" skips the slot lookup altogether. The errors: "Booking not found"; the duplicate message naming the flat; and "Failed to update booking. Please try again." when the store fails or a non-"000" edit meets a slot that does not resolve. A failure changes nothing. A success replaces only that booking's name, flat and phone, keeping its id, slot and creation time |
| AdminActions.EditPreservesValidity | lib/admin-actions.ts:72-79 | An edit keeps ids unique, keeps every booking pointing at an existing slot, and keeps the id bound |
| AdminActions.EditPreservesCounts | lib/admin-actions.ts:72-79 | An edit never changes any slot's booking count |
| AdminActions.EditPreservesCapacity | lib/admin-actions.ts:72-79 | An edit keeps every slot within its capacity |
| AdminActions.EditPreservesFlatsUnique | lib/admin-actions.ts:52-79 | If no flat except "000" occurs twice on one date before an edit, none does after it |
| AdminActions.EditOwnFlatAccepted | lib/admin-actions.ts:60-62 | The edited booking is left out of the search. So when flats are unique per date and the foreign key holds, re-saving a booking with its own flat succeeds |
| AdminActions.ResaveBlockedByDuplicate | lib/admin-actions.ts:53-68 | When two bookings on one date share a flat other than "000", re-saving either with that flat is refused with the duplicate message and changes nothing |
| AdminActions.AdmittedDuplicateBlocksResave | lib/admin-actions.ts:53-68 | After `bookSlot` admits flat "101" twice on one date, re-saving either booking with its own details is refused |
| AdminActions.EditClashRefused | lib/admin-actions.ts:66-68 | Moving a booking to a flat another booking holds on the same date is refused with the message naming the flat, and nothing changes |
| AdminActions.EditMandalAccepted | lib/admin-actions.ts:53 | Flat "000" skips the duplicate check, so a shared "000" is accepted |
| AdminActions.Delete | lib/admin-actions.ts:6-34 | Succeeds exactly when the store is up and a booking has the id. On failure the tables are unchanged and the reply carries the store's message. On success exactly that row is removed |
| AdminActions.DeleteRemovesExactly | lib/admin-actions.ts:11-13 | With unique ids, after a deletion the bookings are exactly the old ones without that id |
| AdminActions.DeleteTwiceFails | lib/admin-actions.ts:11-32 | Deleting the same booking a second time fails |
| AdminActions.DeletePreservesValidity | lib/admin-actions.ts:11-13 | A deletion keeps ids unique, keeps every booking pointing at an existing slot, and keeps the id bound |
| AdminActions.DeletePreservesCapacity | lib/admin-actions.ts:11-13 | A deletion keeps every slot within its capacity |
| AdminActions.DeletePreservesFlatsUnique | lib/admin-actions.ts:11-13 | A deletion keeps flats unique per date |
| AdminActions.SortNewestFirstSorted | lib/admin-actions.ts:99-101 | The bookings are ordered by creation time, newest first |
| AdminActions.GetAllBookings | lib/admin-actions.ts:93-108 | Fails with "Failed to fetch bookings" exactly when the store fails. Otherwise its bookings are a permutation of the booking table, ordered newest first. Each comes with the slot it references, and the slot is missing only when no slot has that id |
| AdminActions.GetAllBookingsSlotsResolve | lib/admin-actions.ts:95-98 | Under the foreign key every listed booking comes with its slot |
| Store.FindSlot | lib/actions.ts:70-73 | Returns a slot with the id from the table, or None exactly when no slot has that id |
| Store.FindSlotFindsMember | lib/actions.ts:70-73 | With unique ids, looking up a slot's id finds that slot |
| Store.BookingsOf | lib/actions.ts:24-26 | The bookings relation holds exactly the bookings referencing the slot |
| Store.CountForRemove | lib/admin-actions.ts:11-13 | Removing a booking lowers its own slot's count by one and leaves every other count unchanged |
| Store.FindByKey | prisma/seed.ts:27-29 | Finds a slot with that (date, time), or None exactly when there is none |
| Store.PresentKeyOccursOnce | prisma/seed.ts:27-29 | Under the unique (date, time) constraint, a key that is present occurs exactly once |
| Database.UpsertStep | prisma/seed.ts:27-38 | After an upsert the key is present. A present key leaves the catalogue unchanged, because the update is empty. An absent key appends a slot with that date, time, a fresh id and the default capacity |
| Database.UpsertPreservesKeys | prisma/seed.ts:27-38 | An upsert keeps ids and (date, time) keys unique, and every id resolves to the same slot as before |
| Database.Ledger.constructor | prisma/seed.ts:3 | The store client opens on empty tables, which satisfy the invariant |
| Database.Ledger.BookSlot | lib/actions.ts:60-103 | The new tables and the reply are those of `Book` on the old tables. The invariant and the capacity bound are kept, and the id generator advances only on success |
| Database.Ledger.UpdateBooking | lib/admin-actions.ts:36-91 | The new tables and the reply are those of `Edit` on the old tables. The invariant is kept and the id generators are unchanged |
| Database.Ledger.DeleteBooking | lib/admin-actions.ts:6-34 | The new tables and the reply are those of `Delete` on the old tables. The invariant is kept and the id generators are unchanged |
| Database.Ledger.UpsertSlot | prisma/seed.ts:27-38 | The slot catalogue becomes `UpsertStep` of the old one. The bookings are unchanged |
| Seed.SeedPairs | prisma/seed.ts:9-26 | The loops visit the 10 dates × 2 time labels. Position 2i+j holds (date i, label j) |
| Seed.SeedPairsDistinct | prisma/seed.ts:9-22 | The 20 visited pairs are pairwise distinct |
| Seed.SeedCovers | prisma/seed.ts:25-41 | After seeding, every visited pair has a slot |
| Seed.SeedExtends | prisma/seed.ts:25-41 | Seeding keeps every existing slot in place. Every slot it adds carries a visited pair and the default capacity |
| Seed.SeedNoOpWhenPresent | prisma/seed.ts:34 | When every pair is already present, seeding changes nothing |
| Seed.SeedIdempotent | prisma/seed.ts:27-39 | Seeding twice gives the same catalogue as seeding once |
| Seed.SeedPreservesKeys | prisma/seed.ts:25-41 | Seeding keeps slot ids and (date, time) keys unique |
| Seed.SeededOnce | prisma/seed.ts:25-41 | After seeding, each visited pair occurs exactly once |
| Seed.SeedEmptyCreatesTwenty | prisma/seed.ts:25-43 | Seeding an empty table creates exactly 20 slots |
| Seed.SeedOutcome | prisma/seed.ts:25-41 | From any valid catalogue, a full run: keeps keys unique, has each pair exactly once, keeps the old slots as a prefix, and is a no-op when every pair was present |
| Seed.SeedCatalogue | prisma/seed.ts:25-41 | The nested loops leave the ledger's slot catalogue equal to the fold of upserts over the 20 pairs. Bookings are untouched and the ledger invariant is kept |
| SlotStatus.StatusText | app/page.tsx:37-45 | "Available" exactly when the count is 0, and "Full" exactly when 0 < count and capacity <= count. The text reads back as "Booked n/c" with exactly that count and capacity, exactly when 0 < n < c |
| SlotStatus.StatusColor | app/page.tsx:27-35 | Green, yellow and red exactly when the text is "Available", "Booked n/c" and "Full" respectively |
| SlotStatus.StatusDot | app/page.tsx:114-117 | The card's dot takes the same three branches as the badge colour |
| SlotStatus.BookedTextRoundTrip | app/page.tsx:41 | `Booked ${n}/${c}` parses back to exactly n and c |
| SlotStatus.FullIffStatusFull | app/page.tsx:47-49 | For capacity >= 1, `isSlotFull` holds exactly when the badge reads "Full". A capacity-0 slot is full yet shows "Available" when empty |
| SlotStatus.BookLinkIffAdmitted | app/page.tsx:163-177 | A card of the listing shows "Book This Slot" exactly when `bookSlot` would admit a booking into that slot |
| SlotStatus.TimeLabel | app/AvailableSlotsModal.tsx:126 | "6:00 PM - 7:00 PM" exactly for "First Aarti", and "7:00 PM - 8:00 PM" for every other label |
| SlotStatus.FirstBeforeSecond | lib/actions.ts:27-30 | On each date, the time order puts "First Aarti" before "Second Aarti" |
| Text.LexLeTotal | lib/actions.ts:27-30 | Any two strings are comparable in the sort order |
| Text.LexLeTransitive | lib/actions.ts:27-30 | The sort order is transitive |
| Text.LexLeAntisymmetric | lib/actions.ts:27-30 | Strings that sort both ways are equal |
| Text.NatToStringRoundTrip | app/page.tsx:41 | The decimal rendering of a count reads back as that count |
| Text.DigitsIdempotent | app/admin/AdminPanel.tsx:69 | Stripping non-digits twice is the same as stripping once |
| Grouping.OnDate | app/page.tsx:10-16 | A date's group holds exactly the slots with that date |
| Grouping.DistinctDatesMembers | app/page.tsx:10-16 | The dictionary's keys are exactly the dates some slot carries |
| Grouping.OnDateAppend | app/page.tsx:10-16 | Grouping keeps the input order within each date |
| Grouping.EverySlotListedOnce | app/page.tsx:10-16 | Listing the groups in key order shows each slot exactly once: the listing is a permutation of the input |
| Grouping.GroupsOfCharacterised | app/page.tsx:10-16 | The reduce's dictionary has a key for exactly the dates that occur. Under each key it holds that date's slots in input order |
| Grouping.GroupByDate | app/page.tsx:10-16 | The loop's key order lists the distinct dates in order of first appearance. Each key maps to exactly that date's slots, in input order |
| AvailableModal.AvailableSlots | app/AvailableSlotsModal.tsx:15 | Exactly the slots whose count is below their capacity, in input order |
| AvailableModal.AvailableSlotsCount | app/AvailableSlotsModal.tsx:15 | Every slot with room is kept as often as it occurs, and no other slot is kept |
| AvailableModal.ModalNeverShowsFull | app/AvailableSlotsModal.tsx:45-53 | No card in the modal reads "Full", and every card offers the booking link |
| AvailableModal.NoAvailableIff | app/AvailableSlotsModal.tsx:97-100 | "No Available Slots" shows exactly when no slot has room |
| AvailableModal.SlotsModal.constructor | app/AvailableSlotsModal.tsx:12 | The modal starts closed |
| AvailableModal.SlotsModal.Open | app/AvailableSlotsModal.tsx:59 | The trigger button opens the modal |
| AvailableModal.SlotsModal.Close | app/AvailableSlotsModal.tsx:69 | The backdrop and the close button close the modal |
| AvailableModal.SlotsModal.Render | app/AvailableSlotsModal.tsx:79-105 | The modal shows content exactly while open. The header count equals the number of available slots. The groups are the available slots by date, keyed in first-appearance order, and each shown slot has room and sits under its own date |
| Schedule.RowAfter | app/view-aarti/page.tsx:96-112 | A date has a row exactly when some slot carries it, and the row's date is that date |
| Schedule.WellLabelledRow | app/view-aarti/page.tsx:96-112 | When a date's slots are all labelled "First Aarti" or "Second Aarti", its row shows in each column the bookings of the last slot with that label, or [] if there is none |
| Schedule.RowStep | app/view-aarti/page.tsx:97-111 | A slot on another date leaves a row unchanged. A new date's row starts with the slot's bookings under its own label only. An existing row is overwritten in "First Aarti" for that label and in "Second Aarti" for any other label |
| Schedule.PivotCharacterised | app/view-aarti/page.tsx:96-112 | The table has one row per distinct date, in order of first appearance, and each row is what the per-date fold gives |
| Schedule.FindRow | app/view-aarti/page.tsx:97 | Returns the position of the first row with the date, or the end when no row has it |
| Schedule.FoldSlot | app/view-aarti/page.tsx:97-111 | One reducer step: it either overwrites one column of the existing row object in place or pushes a new row object. The rows' values become the fold step's values |
| Schedule.PivotRows | app/view-aarti/page.tsx:96-112 | The reduce produces distinct new row objects whose values are the pivot table |
| Schedule.CellLines | app/view-aarti/page.tsx:143-165 | An empty column renders "Available". Otherwise the column renders one "flat - name" line per booking, in order |
| AdminStats.AllBookingsRows | app/admin/AdminPanel.tsx:156-163 | The flattened table has one row per booking of every slot, and each row carries its own slot's date, time and capacity |
| AdminStats.SumCountsPermutation | app/admin/AdminPanel.tsx:198 | Reordering the slots does not change the summed booking counts |
| AdminStats.TotalBookingsMatchesTable | app/admin/AdminPanel.tsx:196-198 | Over the `getAllSlots` listing, "Total Bookings" equals the number of rows in the Booking table |
| AdminStats.StatsMatchBadges | app/admin/AdminPanel.tsx:184-195 | "Available" counts the cards reading "Available", and "Partially Booked" counts the cards reading "Booked n/c". Together with the "Full" cards they account for every slot |
| AdminPanel.PhoneInput | app/admin/AdminPanel.tsx:287-290 | The phone input keeps at most 10 characters, all digits. They are a prefix of the typed digits, and all of them when fewer than 10 were typed |
| AdminPanel.PhoneInputValidIff | app/admin/AdminPanel.tsx:67-72 | What the phone input holds passes the validator exactly when at least 10 digits were typed |
| AdminPanel.PhoneInputIdempotent | app/admin/AdminPanel.tsx:287-290 | Filtering the input's own value again changes nothing |
| AdminPanel.SeparatedPhoneAccepted | app/admin/AdminPanel.tsx:67-72 | "98-765 43210" passes the validator |
| AdminPanel.NineDigitsRejected | app/admin/AdminPanel.tsx:67-72 | A 9-digit number fails the validator |
| AdminPanel.TenDigitPhoneValid | app/admin/AdminPanel.tsx:67-72 | A 10-digit number passes the validator |
| AdminPanel.PreSubmitCheck | app/admin/AdminPanel.tsx:74-90 | Each alert is raised exactly when its check is the first in the order empty field → phone → blank flat to fail. The form reaches the server exactly when all three checks pass |
| AdminPanel.BlankFlatCaughtLast | app/admin/AdminPanel.tsx:86-90 | A flat of spaces is not empty, so it passes the first check and is caught by the blank-flat check |
| AdminPanel.Panel.constructor | app/admin/AdminPanel.tsx:12-21 | The panel starts locked, with no row being edited, deleted or updated, and with an empty form |
| AdminPanel.Panel.TypePassword | app/admin/AdminPanel.tsx:137 | The password field holds what was typed. Every other state field is unchanged |
| AdminPanel.Panel.HandleLogin | app/admin/AdminPanel.tsx:25-32 | Unlocks the panel exactly when the password equals the configured one. Otherwise it alerts "Invalid password!". No other state field changes |
| AdminPanel.Panel.Logout | app/admin/AdminPanel.tsx:398 | Locks the panel. No other state field changes |
| AdminPanel.Panel.HandleEditBooking | app/admin/AdminPanel.tsx:53-65 | Marks the booking as edited and loads its name, flat and phone into the form. No other state field changes |
| AdminPanel.Panel.EditName | app/admin/AdminPanel.tsx:263 | Only the form's name changes |
| AdminPanel.Panel.EditFlat | app/admin/AdminPanel.tsx:275 | Only the form's flat changes |
| AdminPanel.Panel.EditPhone | app/admin/AdminPanel.tsx:287-290 | Only the form's phone changes, to the filtered digits |
| AdminPanel.Panel.HandleCancelEdit | app/admin/AdminPanel.tsx:109-112 | Closes the row and clears the form. No other state field changes |
| AdminPanel.Panel.HandleUpdateBooking | app/admin/AdminPanel.tsx:74-107 | The server is called exactly when the pre-submit checks pass. Otherwise the first failing check's alert is shown and neither the panel nor the ledger changes. After a call the ledger's tables are `Edit` of their old state and its id generators are unchanged. A success alerts "Booking updated successfully!", closes the row and clears the form. A failure alerts with the server's error. Either way the updating marker is cleared and no other state field changes |
| AdminPanel.Panel.HandleDeleteBooking | app/admin/AdminPanel.tsx:34-51 | Without confirmation neither the panel nor the ledger changes. Otherwise the ledger's tables become `Delete` of their old state and its id generators are unchanged. The success or failure alert is shown, the deleting marker is cleared, and no other state field changes |

## Left out

- Concurrency. Each server action is one atomic step on the tables. In the code,
  `bookSlot` finds then creates, and `updateBooking` checks then updates, with
  no transaction. The model makes no claim about racing requests.
- Prisma access, connections, `revalidatePath`, and `console` logging are I/O.
  The store is the in-memory `Tables` value, or the `Ledger` object.
- A failing store is the `storeUp` parameter. The text the store raises on
  `deleteBooking` comes from the store, so it is the `storeError` parameter.
- Row ids are natural-number counters standing in for the store's generated
  ids. `createdAt` is the `now` parameter.
- The slot schema's default capacity is not part of this model. It is the
  ledger's `defaultCapacity`.
- Date formatting with `toLocaleDateString`, and the schedule's weekday `day`
  column. Both depend on locale and time zone. Dates are kept as the ISO
  strings the store holds.
- All markup, styling and routing. The `alert` dialogs are modelled as the
  returned alert text, and the `confirm` dialog as the `confirmed` parameter.
- The client's catch branches ("Error deleting booking", "Error updating
  booking") fire on a network failure between browser and server, which is not
  modelled. A store failure is modelled through the server action's reply.
- `process.env.ADMIN_PASSWORD` and its fallback. The configured password is a
  constructor parameter of `Panel`.
- The hard-coded "20" Total Slots figure of the admin panel. It is a constant,
  not computed.
- The seeding script's catch, `process.exit` and `$disconnect`, and its log lines.
- The store's string collation is not part of this model. `orderBy` on `date`
  and `time` is assumed to compare by character code (`Text.LexLe`), which is
  what `Actions.SortSlotsSorted` and `Actions.GetAllSlots` promise. Under a
  locale collation arbitrary strings may sort differently. ISO dates and the
  two labels "First Aarti" and "Second Aarti" sort the same under the usual
  collations.
- AdminPanel.PhoneInput: models the phone input's `onChange` filter on the
  value the browser reports. The input's `maxLength={10}`
  (app/admin/AdminPanel.tsx:291) already limits that value to ten characters,
  separators included, before the filter runs. That limit is not modelled, so
  `PhoneInputValidIff` counts every digit typed, not only those the browser
  accepted.
- Database.Ledger.UpdateBooking: the method's contract states the invariant
  (`Valid`) and the step function. The facts that an edit keeps capacity and
  per-date flat uniqueness are stated as lemmas about `Edit`
  (`EditPreservesCapacity`, `EditPreservesFlatsUnique`), not as method
  postconditions.
- Database.Ledger.DeleteBooking: likewise. Capacity and flat uniqueness are
  stated as `DeletePreservesCapacity` and `DeletePreservesFlatsUnique` about
  `Delete`.
- The booking form page and its form component are not part of this model.
  They are where a resident's booking starts in the browser.
- The home page and the modal each define `getStatusText` and `getStatusColor`.
  The two copies are identical, so each is modelled once in `SlotStatus`.
