/** The admin panel's client-side state and rules: the password gate, the
    inline edit form with its phone filter and pre-submit checks, and the
    handlers that call the update and delete server actions. */
module AdminPanel {
  import opened Types
  import opened Text
  import opened Store
  import opened AdminActions
  import opened Database

  const InvalidPasswordAlert: string := "Invalid password!"
  const FillAllFieldsAlert: string := "Please fill in all fields"
  const InvalidPhoneAlert: string := "Please enter a valid 10-digit phone number"
  const InvalidFlatAlert: string := "Please enter a valid flat number"
  const UpdatedAlert: string := "Booking updated successfully!"
  const UpdateFailedPrefix: string := "Failed to update booking: "
  const DeletedAlert: string := "Booking deleted successfully!"
  const DeleteFailedPrefix: string := "Failed to delete booking: "

  /** The number of digits a phone number must have. */
  const PhoneLength: nat := 10

  // ---------------------------------------------------------------------------
  // Phone numbers
  // ---------------------------------------------------------------------------

  /** `validatePhoneNumber`: exactly ten digits once everything else is stripped. */
  predicate ValidatePhoneNumber(phone: string) {
    |Digits(phone)| == PhoneLength
  }

  /** The phone input's `onChange`: keep the digits and cut them to ten. */
  function PhoneInput(typed: string): (r: string)
    ensures |r| <= PhoneLength
    ensures forall k :: 0 <= k < |r| ==> IsDigit(r[k])
    ensures |r| <= |Digits(typed)| && r == Digits(typed)[..|r|]
    ensures |r| == PhoneLength || r == Digits(typed)
  {
    var d := Digits(typed);
    if |d| <= PhoneLength then d else d[..PhoneLength]
  }

  /** What the input holds passes the validator exactly when at least ten digits were typed. */
  lemma PhoneInputValidIff(typed: string)
    ensures ValidatePhoneNumber(PhoneInput(typed)) <==> |Digits(typed)| >= PhoneLength
  {
    DigitsOfDigitString(PhoneInput(typed));
  }

  /** Filtering what the input already holds changes nothing. */
  lemma PhoneInputIdempotent(typed: string)
    ensures PhoneInput(PhoneInput(typed)) == PhoneInput(typed)
  {
    DigitsOfDigitString(PhoneInput(typed));
  }

  /** Separators are ignored: "98-765 43210" holds ten digits. */
  lemma SeparatedPhoneAccepted()
    ensures ValidatePhoneNumber("98-765 43210")
  {
    var a, b, c := "98", "765", "43210";
    var s4 := " " + c;
    var s3 := b + s4;
    var s2 := "-" + s3;
    var s1 := a + s2;
    assert s1 == "98-765 43210";
    DigitsOfDigitString(c);
    DigitsAppend(" ", c);
    assert |Digits(s4)| == 5;
    DigitsOfDigitString(b);
    DigitsAppend(b, s4);
    assert |Digits(s3)| == 8;
    DigitsAppend("-", s3);
    assert |Digits(s2)| == 8;
    DigitsOfDigitString(a);
    DigitsAppend(a, s2);
  }

  /** Nine digits are too few. */
  lemma NineDigitsRejected()
    ensures !ValidatePhoneNumber("987654321")
  {
    DigitsOfDigitString("987654321");
  }

  // ---------------------------------------------------------------------------
  // Pre-submit checks of the edit form
  // ---------------------------------------------------------------------------

  /** The checks `handleUpdateBooking` runs before calling the server, in
      order: a field left empty, then the phone, then a blank flat. `None`
      means the form goes to the server; `Some(alert)` is the alert shown. */
  function PreSubmitCheck(form: BookingForm): (r: Option<string>)
    ensures r == Some(FillAllFieldsAlert) <==> form.name == [] || form.flat == [] || form.phone == []
    ensures r == Some(InvalidPhoneAlert) <==>
      form.name != [] && form.flat != [] && form.phone != [] && !ValidatePhoneNumber(form.phone)
    ensures r == Some(InvalidFlatAlert) <==>
      form.name != [] && form.flat != [] && form.phone != [] && ValidatePhoneNumber(form.phone) && IsBlank(form.flat)
    ensures r == None <==>
      form.name != [] && form.flat != [] && ValidatePhoneNumber(form.phone) && !IsBlank(form.flat)
  {
    if form.name == [] || form.flat == [] || form.phone == [] then Some(FillAllFieldsAlert)
    else if !ValidatePhoneNumber(form.phone) then Some(InvalidPhoneAlert)
    else if IsBlank(form.flat) then Some(InvalidFlatAlert)
    else None
  }

  /** A ten-digit mobile number passes the phone check. */
  lemma TenDigitPhoneValid()
    ensures ValidatePhoneNumber("9876543210")
  {
    DigitsOfDigitString("9876543210");
  }

  /** A flat made only of spaces is not empty, so it passes the first check
      and is caught by the third. */
  lemma BlankFlatCaughtLast()
    ensures PreSubmitCheck(BookingForm("A", " ", "9876543210")) == Some(InvalidFlatAlert)
  {
    var form := BookingForm("A", " ", "9876543210");
    TenDigitPhoneValid();
    assert IsBlank(form.flat) by {
      assert IsJsWhitespace(form.flat[0]);
    }
    assert !(form.name == [] || form.flat == [] || form.phone == []);
  }

  // ---------------------------------------------------------------------------
  // Component state
  // ---------------------------------------------------------------------------

  /** The values of the panel's `useState` fields at one moment. */
  datatype PanelState = PanelState(
    password: string,
    isAuthenticated: bool,
    isDeleting: Option<nat>,
    isEditing: Option<nat>,
    editForm: BookingForm,
    isUpdating: Option<nat>)

  /** The panel's `useState` fields. Booking ids are `Option<nat>` where the
      component stores a string id or `null`. */
  class Panel {
    const adminPassword: string
    var password: string
    var isAuthenticated: bool
    var isDeleting: Option<nat>
    var isEditing: Option<nat>
    var editForm: BookingForm
    var isUpdating: Option<nat>

    /** Every field the handlers may change. */
    function State(): PanelState
      reads this
    {
      PanelState(password, isAuthenticated, isDeleting, isEditing, editForm, isUpdating)
    }

    /** The initial state; `adminPassword` is the configured password. */
    constructor(adminPassword: string)
      ensures this.adminPassword == adminPassword
      ensures password == [] && !isAuthenticated
      ensures isDeleting == None && isEditing == None && isUpdating == None && editForm == EmptyForm
    {
      this.adminPassword := adminPassword;
      password := [];
      isAuthenticated := false;
      isDeleting, isEditing, isUpdating := None, None, None;
      editForm := EmptyForm;
    }

    /** The password field's `onChange`. */
    method TypePassword(typed: string)
      modifies this
      ensures State() == old(State()).(password := typed)
    {
      password := typed;
    }

    /** `handleLogin`: unlock the panel when the password matches; otherwise
        alert and stay locked. */
    method HandleLogin() returns (alert: Option<string>)
      modifies this
      ensures State() == old(State()).(isAuthenticated := old(isAuthenticated) || password == adminPassword)
      ensures alert == None <==> password == adminPassword
      ensures alert.Some? ==> alert.value == InvalidPasswordAlert
    {
      if password == adminPassword {
        isAuthenticated := true;
        alert := None;
      } else {
        alert := Some(InvalidPasswordAlert);
      }
    }

    /** The logout button. */
    method Logout()
      modifies this
      ensures State() == old(State()).(isAuthenticated := false)
    {
      isAuthenticated := false;
    }

    /** `handleEditBooking`: open the row for editing with its current values. */
    method HandleEditBooking(b: Booking)
      modifies this
      ensures State() == old(State()).(isEditing := Some(b.id), editForm := BookingForm(b.name, b.flat, b.phone))
    {
      isEditing := Some(b.id);
      editForm := BookingForm(b.name, b.flat, b.phone);
    }

    /** The name input's `onChange`. */
    method EditName(typed: string)
      modifies this
      ensures State() == old(State()).(editForm := old(editForm).(name := typed))
    {
      editForm := editForm.(name := typed);
    }

    /** The flat input's `onChange`. */
    method EditFlat(typed: string)
      modifies this
      ensures State() == old(State()).(editForm := old(editForm).(flat := typed))
    {
      editForm := editForm.(flat := typed);
    }

    /** The phone input's `onChange`: only the filtered digits reach the form. */
    method EditPhone(typed: string)
      modifies this
      ensures State() == old(State()).(editForm := old(editForm).(phone := PhoneInput(typed)))
    {
      editForm := editForm.(phone := PhoneInput(typed));
    }

    /** `handleCancelEdit`: close the row and clear the form. */
    method HandleCancelEdit()
      modifies this
      ensures State() == old(State()).(isEditing := None, editForm := EmptyForm)
    {
      isEditing := None;
      editForm := EmptyForm;
    }

    /** `handleUpdateBooking`: run the checks; when they pass, send the form to
        `updateBooking`; on success close the row and clear the form. Returns
        the alert shown and whether the server was called. */
    method HandleUpdateBooking(bookingId: nat, ledger: Ledger, storeUp: bool) returns (alert: string, sent: bool)
      requires ledger.Valid()
      modifies this, ledger
      ensures ledger.Valid()
      ensures ledger.nextSlotId == old(ledger.nextSlotId) && ledger.nextBookingId == old(ledger.nextBookingId)
      ensures sent <==> PreSubmitCheck(old(editForm)).None?
      ensures !sent ==>
        && alert == PreSubmitCheck(old(editForm)).value
        && ledger.Snapshot() == old(ledger.Snapshot())
        && State() == old(State())
      ensures sent ==>
        var o := Edit(old(ledger.Snapshot()), bookingId, old(editForm), storeUp);
        && ledger.Snapshot() == o.after
        && (o.reply.Success? ==>
              alert == UpdatedAlert && State() == old(State()).(isEditing := None, editForm := EmptyForm, isUpdating := None))
        && (o.reply.Failure? ==>
              alert == UpdateFailedPrefix + o.reply.error && State() == old(State()).(isUpdating := None))
    {
      var check := PreSubmitCheck(editForm);
      if check.Some? {
        alert, sent := check.value, false;
        return;
      }
      sent := true;
      isUpdating := Some(bookingId);
      var result := ledger.UpdateBooking(bookingId, editForm, storeUp);
      if result.Success? {
        alert := UpdatedAlert;
        isEditing := None;
        editForm := EmptyForm;
      } else {
        alert := UpdateFailedPrefix + result.error;
      }
      isUpdating := None;
    }

    /** `handleDeleteBooking`: ask for confirmation; when given, call
        `deleteBooking` and report its outcome. */
    method HandleDeleteBooking(bookingId: nat, confirmed: bool, ledger: Ledger, storeUp: bool, storeError: string)
      returns (alert: Option<string>)
      requires ledger.Valid()
      modifies this, ledger
      ensures ledger.Valid()
      ensures ledger.nextSlotId == old(ledger.nextSlotId) && ledger.nextBookingId == old(ledger.nextBookingId)
      ensures !confirmed ==> alert == None && ledger.Snapshot() == old(ledger.Snapshot()) && State() == old(State())
      ensures confirmed ==>
        var o := Delete(old(ledger.Snapshot()), bookingId, storeUp, storeError);
        && ledger.Snapshot() == o.after
        && alert == Some(if o.reply.Success? then DeletedAlert else DeleteFailedPrefix + o.reply.error)
        && State() == old(State()).(isDeleting := None)
    {
      if !confirmed {
        return None;
      }
      isDeleting := Some(bookingId);
      var result := ledger.DeleteBooking(bookingId, storeUp, storeError);
      if result.Success? {
        alert := Some(DeletedAlert);
      } else {
        alert := Some(DeleteFailedPrefix + result.error);
      }
      isDeleting := None;
    }
  }
}
