/**
 * Server-side validation of the three appointment forms. A form yields the list of
 * its errors in the order the form reports them: each field in declaration order
 * (its own check, then its `clean_<field>` rule), then the form-wide `clean` rule,
 * which sees only the fields that passed. The form is valid iff the list is empty.
 */
module Forms {

  import opened Wrappers
  import opened TimeSlots
  import opened Appointments

  datatype FormError =
    | DoctorRequired
    | DoctorNotSelectable
    | DateRequired
    | DateInPast
    | DateTooFarAhead
    | SlotRequired
    | SlotNotSelectable
    | ReasonRequired
    | SlotAlreadyBooked
    | StatusNotSelectable

  /** Bookings may be made up to this many days ahead, today included. */
  const BOOKING_WINDOW_DAYS: nat := 30

  /** The doctors a booking may name: profiles with `is_available` set. */
  predicate IsBookableDoctor(doctors: seq<DoctorProfile>, id: DoctorId)
  {
    exists i :: 0 <= i < |doctors| && doctors[i].id == id && doctors[i].isAvailable
  }

  /**
   * A slot-holding appointment of `doctor` at (`date`, `slot`) other than the row
   * `self` (the form's own instance).
   */
  predicate SlotTaken(rows: seq<Appointment>, doctor: DoctorId, date: int, slot: string, self: AppointmentId)
  {
    exists i :: 0 <= i < |rows| && rows[i].id != self && rows[i].doctor == doctor &&
      rows[i].date == date && rows[i].slot == slot && HoldsSlot(rows[i].status)
  }

  // ---------------------------------------------------------------------------
  // Field checks. An absent Option stands for a missing or unparsable value.
  // ---------------------------------------------------------------------------

  function DoctorErrors(doctors: seq<DoctorProfile>, doctor: Option<DoctorId>): seq<FormError>
  {
    match doctor
    case None => [DoctorRequired]
    case Some(d) => if IsBookableDoctor(doctors, d) then [] else [DoctorNotSelectable]
  }

  /** The booking date rule: no date in the past, none beyond the window; the past check first. */
  function BookingDateError(today: int, date: int): (e: Option<FormError>)
    ensures e.None? <==> today <= date <= today + BOOKING_WINDOW_DAYS
    ensures e == Some(DateInPast) <==> date < today
    ensures e == Some(DateTooFarAhead) <==> date > today + BOOKING_WINDOW_DAYS
  {
    if date < today then Some(DateInPast)
    else if date > today + BOOKING_WINDOW_DAYS then Some(DateTooFarAhead)
    else None
  }

  /** The edit date rule: only a past date is refused. */
  function EditDateError(today: int, date: int): (e: Option<FormError>)
    ensures e.None? <==> today <= date
    ensures e.Some? ==> e.value == DateInPast
  {
    if date < today then Some(DateInPast) else None
  }

  function DateErrors(date: Option<int>, rule: int -> Option<FormError>): seq<FormError>
  {
    match date
    case None => [DateRequired]
    case Some(d) => match rule(d) { case None => [] case Some(e) => [e] }
  }

  function SlotErrors(slot: string): seq<FormError>
  {
    if slot == "" then [SlotRequired]
    else if IsListedSlot(slot) then []
    else [SlotNotSelectable]
  }

  function ReasonErrors(reason: string): seq<FormError>
  {
    if reason == "" then [ReasonRequired] else []
  }

  // ---------------------------------------------------------------------------
  // Booking form: doctor, date, time_slot, reason.
  // ---------------------------------------------------------------------------

  datatype BookingInput = BookingInput(doctor: Option<DoctorId>, date: Option<int>, slot: string, reason: string)

  /** The doctor, date and slot all passed their field checks, so the clash check runs. */
  predicate BookingFieldsValid(doctors: seq<DoctorProfile>, today: int, input: BookingInput)
  {
    && input.doctor.Some? && IsBookableDoctor(doctors, input.doctor.value)
    && input.date.Some? && BookingDateError(today, input.date.value).None?
    && IsListedSlot(input.slot)
  }

  /**
   * The errors of a booking submission. `self` is the primary key already given to
   * the new instance; the clash check leaves that row out.
   */
  function BookingErrors(rows: seq<Appointment>, doctors: seq<DoctorProfile>, today: int,
                         self: AppointmentId, input: BookingInput): (errs: seq<FormError>)
    ensures errs == [] <==>
      && BookingFieldsValid(doctors, today, input)
      && input.reason != ""
      && !SlotTaken(rows, input.doctor.value, input.date.value, input.slot, self)
    ensures SlotAlreadyBooked in errs <==>
      BookingFieldsValid(doctors, today, input) &&
      SlotTaken(rows, input.doctor.value, input.date.value, input.slot, self)
    ensures input.date.Some? && input.date.value < today ==>
      DateInPast in errs && DateTooFarAhead !in errs
    ensures input.date.Some? && input.date.value > today + BOOKING_WINDOW_DAYS ==>
      DateTooFarAhead in errs && DateInPast !in errs
  {
    var fieldErrs := DoctorErrors(doctors, input.doctor)
      + DateErrors(input.date, d => BookingDateError(today, d))
      + SlotErrors(input.slot)
      + ReasonErrors(input.reason);
    if BookingFieldsValid(doctors, today, input)
       && SlotTaken(rows, input.doctor.value, input.date.value, input.slot, self)
    then fieldErrs + [SlotAlreadyBooked]
    else fieldErrs
  }

  /** The window is inclusive at both ends: yesterday and today+31 fail, today and today+30 pass. */
  lemma BookingWindowBounds(today: int)
    ensures BookingDateError(today, today - 1) == Some(DateInPast)
    ensures BookingDateError(today, today).None?
    ensures BookingDateError(today, today + 30).None?
    ensures BookingDateError(today, today + 31) == Some(DateTooFarAhead)
  {
  }

  /** Cancelled and completed rows never make a slot taken: appending them changes nothing. */
  lemma {:induction false} TerminalRowsNeverConflict(rows: seq<Appointment>, extra: seq<Appointment>,
                                                     doctor: DoctorId, date: int, slot: string, self: AppointmentId)
    requires forall i :: 0 <= i < |extra| ==> !HoldsSlot(extra[i].status)
    ensures SlotTaken(rows + extra, doctor, date, slot, self) == SlotTaken(rows, doctor, date, slot, self)
  {
    var all := rows + extra;
    if SlotTaken(all, doctor, date, slot, self) {
      var i :| 0 <= i < |all| && all[i].id != self && all[i].doctor == doctor &&
        all[i].date == date && all[i].slot == slot && HoldsSlot(all[i].status);
      if i < |rows| {
        assert rows[i] == all[i];
      } else {
        assert false;
      }
    }
    if SlotTaken(rows, doctor, date, slot, self) {
      var i :| 0 <= i < |rows| && rows[i].id != self && rows[i].doctor == doctor &&
        rows[i].date == date && rows[i].slot == slot && HoldsSlot(rows[i].status);
      assert all[i] == rows[i];
    }
  }

  /**
   * Re-submitting an active appointment at its current doctor, date and slot is not
   * a clash with itself: in a stored table its own row is the only active one there.
   */
  lemma {:induction false} OwnRowIsNoConflict(rows: seq<Appointment>, k: nat)
    requires TableInvariant(rows)
    requires k < |rows| && HoldsSlot(rows[k].status)
    ensures !SlotTaken(rows, rows[k].doctor, rows[k].date, rows[k].slot, rows[k].id)
  {
    var a := rows[k];
    if SlotTaken(rows, a.doctor, a.date, a.slot, a.id) {
      var i :| 0 <= i < |rows| && rows[i].id != a.id && rows[i].doctor == a.doctor &&
        rows[i].date == a.date && rows[i].slot == a.slot && HoldsSlot(rows[i].status);
      assert i != k;
      if i < k { assert SameBooking(rows[i], rows[k]); } else { assert SameBooking(rows[k], rows[i]); }
    }
  }

  // ---------------------------------------------------------------------------
  // Edit form: date, time_slot, reason. The doctor is the instance's own.
  // ---------------------------------------------------------------------------

  datatype EditInput = EditInput(date: Option<int>, slot: string, reason: string)

  function EditErrors(rows: seq<Appointment>, instance: Appointment, today: int,
                      input: EditInput): (errs: seq<FormError>)
    ensures errs == [] <==>
      && input.date.Some? && input.date.value >= today
      && IsListedSlot(input.slot)
      && input.reason != ""
      && !SlotTaken(rows, instance.doctor, input.date.value, input.slot, instance.id)
    ensures SlotAlreadyBooked in errs <==>
      && input.date.Some? && input.date.value >= today && IsListedSlot(input.slot)
      && SlotTaken(rows, instance.doctor, input.date.value, input.slot, instance.id)
    ensures DateTooFarAhead !in errs
  {
    var fieldErrs := DateErrors(input.date, d => EditDateError(today, d))
      + SlotErrors(input.slot)
      + ReasonErrors(input.reason);
    if input.date.Some? && EditDateError(today, input.date.value).None? && IsListedSlot(input.slot)
       && SlotTaken(rows, instance.doctor, input.date.value, input.slot, instance.id)
    then fieldErrs + [SlotAlreadyBooked]
    else fieldErrs
  }

  /**
   * A date past the booking window is refused by the booking form but not by the
   * edit form: an edit can move an appointment arbitrarily far ahead.
   */
  lemma {:induction false} EditHasNoUpperBound(rows: seq<Appointment>, doctors: seq<DoctorProfile>,
                                               instance: Appointment, today: int, date: int,
                                               slot: string, reason: string)
    requires date > today + BOOKING_WINDOW_DAYS
    requires IsListedSlot(slot) && reason != ""
    requires !SlotTaken(rows, instance.doctor, date, slot, instance.id)
    ensures EditErrors(rows, instance, today, EditInput(Some(date), slot, reason)) == []
    ensures DateTooFarAhead in
      BookingErrors(rows, doctors, today, instance.id, BookingInput(Some(instance.doctor), Some(date), slot, reason))
  {
  }

  // ---------------------------------------------------------------------------
  // Doctor update form: status and notes only.
  // ---------------------------------------------------------------------------

  /** `status` is absent when the submitted value is not one of the four choices. */
  datatype DoctorUpdateInput = DoctorUpdateInput(status: Option<Status>, notes: string)

  function DoctorUpdateErrors(input: DoctorUpdateInput): (errs: seq<FormError>)
    ensures errs == [] <==> input.status.Some?
  {
    if input.status.None? then [StatusNotSelectable] else []
  }

  /** The update form's effect on the instance: status and notes replaced, every other field kept. */
  function ApplyDoctorUpdate(a: Appointment, status: Status, notes: string): (b: Appointment)
    ensures b.status == status && b.notes == notes
    ensures b == a.(status := b.status, notes := b.notes)
  {
    a.(status := status, notes := notes)
  }

  /** There is no transition table: every status is accepted, from any current status. */
  lemma AnyStatusAccepted(a: Appointment, s: Status, notes: string)
    ensures DoctorUpdateErrors(DoctorUpdateInput(Some(s), notes)) == []
    ensures ApplyDoctorUpdate(a, s, notes).status == s
  {
  }
}
