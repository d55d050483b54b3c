/** The rows of the two tables the booking portal keeps (AartiSlot and Booking),
    the views the pages receive, and the replies of the server actions. */
module Types {

  datatype Option<T> = None | Some(value: T)

  /** The object a server action returns: `{ success: true, ... }` or
      `{ success: false, error }`. */
  datatype Reply<T> = Success(value: T) | Failure(error: string)

  /** A row of the AartiSlot table. Dates are ISO strings such as "2025-09-22";
      `time` is a label such as "First Aarti". */
  datatype Slot = Slot(id: nat, date: string, time: string, capacity: nat)

  /** A row of the Booking table; `slotId` refers to a Slot row. */
  datatype Booking = Booking(id: nat, slotId: nat, name: string, flat: string, phone: string, createdAt: int)

  /** The three fields a resident or an administrator fills in. */
  datatype BookingForm = BookingForm(name: string, flat: string, phone: string)

  /** A slot with its bookings attached, as the pages receive it (`SlotWithBookings`). */
  datatype SlotView = SlotView(id: nat, date: string, time: string, capacity: nat, bookings: seq<Booking>)

  /** A booking with the slot row it references (`include: { slot: true }`);
      `None` where the reference does not resolve. */
  datatype BookingWithSlot = BookingWithSlot(booking: Booking, slot: Option<Slot>)

  /** Both tables of the store at one moment. */
  datatype Tables = Tables(slots: seq<Slot>, bookings: seq<Booking>)

  /** The tables after a server action, and what the action returned. */
  datatype Outcome<T> = Outcome(after: Tables, reply: Reply<T>)

  /** The flat number used for the Mandal Aarti; it is exempt from the
      one-booking-per-flat-per-date rule. */
  const MandalFlat: string := "000"

  const FirstAarti: string := "First Aarti"
  const SecondAarti: string := "Second Aarti"

  const EmptyForm: BookingForm := BookingForm("", "", "")
}
