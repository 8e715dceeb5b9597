/**
 * Properties that relate several operations of the booking engine: what a booking
 * or a cancellation does to the free-slot query, that a cancellation cannot be
 * repeated, and the consequences of the table's uniqueness rule.
 */
module BookingProperties {

  import opened Wrappers
  import opened TimeSlots
  import opened Appointments
  import opened Forms
  import opened Views

  /** The free-slot query for `doctor` on `date` offers the value `slot`. */
  predicate Offered(rows: seq<Appointment>, doctors: seq<DoctorProfile>, doctor: DoctorId, date: int, slot: string)
  {
    exists c :: c in AvailableSlots(rows, doctors, Some(doctor), OnDay(date)).slots && c.value == slot
  }

  /** With unique ids, the row found for an id is the only row with that id. */
  lemma IndexOfUnique(rows: seq<Appointment>, k: nat)
    requires UniqueIds(rows) && k < |rows|
    ensures IndexOf(rows, rows[k].id) == Some(k)
  {
  }

  /**
   * A successful booking took a slot the free-slot query offered at the time, and
   * the query no longer offers it afterwards.
   */
  lemma BookingTakesOfferedSlot(rows: seq<Appointment>, doctors: seq<DoctorProfile>, user: User,
                                input: BookingInput, id: AppointmentId, today: int)
    requires BookDecision(rows, doctors, user, input, id, today) == Done
    ensures input.doctor.Some? && input.date.Some?
    ensures Offered(rows, doctors, input.doctor.value, input.date.value, input.slot)
    ensures !Offered(rows + [BookedRow(user, input, id)], doctors, input.doctor.value, input.date.value, input.slot)
  {
    var d, day := input.doctor.value, input.date.value;
    var row := BookedRow(user, input, id);
    assert IsKnownDoctor(doctors, d);
    var j :| 0 <= j < |TIME_CHOICES| && TIME_CHOICES[j].value == input.slot;
    assert TIME_CHOICES[j] in AvailableSlots(rows, doctors, Some(d), OnDay(day)).slots;
    var after := rows + [row];
    assert after[|rows|] == row;
    assert input.slot in BookedSlots(after, d, day);
  }

  /**
   * Conversely, a patient's booking of a slot the query offers, for a bookable doctor,
   * within the window and with a reason, always succeeds (given a fresh key).
   */
  lemma OfferedSlotIsBookable(rows: seq<Appointment>, doctors: seq<DoctorProfile>, user: User,
                              input: BookingInput, id: AppointmentId, today: int)
    requires user.role == Patient
    requires input.doctor.Some? && IsBookableDoctor(doctors, input.doctor.value)
    requires input.date.Some? && today <= input.date.value <= today + BOOKING_WINDOW_DAYS
    requires input.reason != ""
    requires IndexOf(rows, id).None?
    requires Offered(rows, doctors, input.doctor.value, input.date.value, input.slot)
    ensures BookDecision(rows, doctors, user, input, id, today) == Done
  {
    var d, day := input.doctor.value, input.date.value;
    var c :| c in AvailableSlots(rows, doctors, Some(d), OnDay(day)).slots && c.value == input.slot;
    var j :| 0 <= j < |TIME_CHOICES| && TIME_CHOICES[j] == c;
    assert IsListedSlot(input.slot);
  }

  /**
   * A cancellation releases the slot: held before, offered again afterwards
   * (for a doctor whose profile exists, as every stored appointment's does).
   */
  lemma CancelFreesSlot(rows: seq<Appointment>, doctors: seq<DoctorProfile>, user: User,
                        id: AppointmentId, now: int)
    requires TableInvariant(rows)
    requires CancelDecision(rows, doctors, user, id, now, true) == Done
    ensures IndexOf(rows, id).Some?
    ensures var a := rows[IndexOf(rows, id).value];
      var after := rows[IndexOf(rows, id).value := CancelledRow(a)];
      && a.slot in BookedSlots(rows, a.doctor, a.date)
      && a.slot !in BookedSlots(after, a.doctor, a.date)
      && (IsKnownDoctor(doctors, a.doctor) ==> Offered(after, doctors, a.doctor, a.date, a.slot))
  {
    var k := IndexOf(rows, id).value;
    var a := rows[k];
    var after := rows[k := CancelledRow(a)];
    ListedSlotIsClock(a.slot);
    assert HoldsSlot(a.status);
    assert a.slot in BookedSlots(rows, a.doctor, a.date);
    if a.slot in BookedSlots(after, a.doctor, a.date) {
      var i :| 0 <= i < |after| && after[i].doctor == a.doctor && after[i].date == a.date &&
        HoldsSlot(after[i].status) && after[i].slot == a.slot;
      assert i != k && after[i] == rows[i];
      if i < k { assert SameBooking(rows[i], rows[k]); }
    }
    if IsKnownDoctor(doctors, a.doctor) {
      var j :| 0 <= j < |TIME_CHOICES| && TIME_CHOICES[j].value == a.slot;
      assert TIME_CHOICES[j] in AvailableSlots(after, doctors, Some(a.doctor), OnDay(a.date)).slots;
    }
  }

  /** A cancelled appointment cannot be cancelled again, by anyone allowed to act on it, at any time. */
  lemma SecondCancelRefused(rows: seq<Appointment>, doctors: seq<DoctorProfile>, user: User,
                            id: AppointmentId, now: int, later: int, confirmed: bool)
    requires TableInvariant(rows)
    requires CancelDecision(rows, doctors, user, id, now, true) == Done
    ensures IndexOf(rows, id).Some?
    ensures var k := IndexOf(rows, id).value;
      var after := rows[k := CancelledRow(rows[k])];
      TableInvariant(after) && CancelDecision(after, doctors, user, id, later, confirmed) == NotCancellable
  {
    var k := IndexOf(rows, id).value;
    var b := CancelledRow(rows[k]);
    ReleasingSaveSucceeds(rows, k, b);
    var after := Update(rows, k, b).value;
    assert after == rows[k := b];
    IndexOfUnique(after, k);
  }

  // ---------------------------------------------------------------------------
  // The uniqueness rule of the table.
  // ---------------------------------------------------------------------------

  const SAMPLE_DOCTORS: seq<DoctorProfile> := [DoctorProfile(5, 20, "cardiologist", true)]
  const SAMPLE_ROWS: seq<Appointment> := [Appointment(1, 10, 5, 100, "09:00", Cancelled, "checkup", "")]
  const SAMPLE_REBOOKING: BookingInput := BookingInput(Some(5), Some(100), "09:00", "fever")

  /** A schedule entry that no active row of the doctor holds on that date is offered. */
  lemma FreeEntryIsOffered(rows: seq<Appointment>, doctors: seq<DoctorProfile>, doctor: DoctorId, date: int, j: nat)
    requires IsKnownDoctor(doctors, doctor)
    requires j < |TIME_CHOICES| && TIME_CHOICES[j].value !in BookedSlots(rows, doctor, date)
    ensures Offered(rows, doctors, doctor, date, TIME_CHOICES[j].value)
  {
    assert TIME_CHOICES[j] in AvailableSlots(rows, doctors, Some(doctor), OnDay(date)).slots;
  }

  lemma SampleTableShape()
    ensures TableInvariant(SAMPLE_ROWS) && UniqueTogether(SAMPLE_ROWS)
    ensures BookedSlots(SAMPLE_ROWS, 5, 100) == {}
  {
    assert TIME_CHOICES[0].value == "09:00";
  }

  lemma SampleSlotOffered()
    ensures Offered(SAMPLE_ROWS, SAMPLE_DOCTORS, 5, 100, "09:00")
  {
    SampleTableShape();
    assert IsKnownDoctor(SAMPLE_DOCTORS, 5) by { assert SAMPLE_DOCTORS[0].id == 5; }
    assert TIME_CHOICES[0].value == "09:00";
    FreeEntryIsOffered(SAMPLE_ROWS, SAMPLE_DOCTORS, 5, 100, 0);
  }

  lemma SampleFormAccepts()
    ensures BookingErrors(SAMPLE_ROWS, SAMPLE_DOCTORS, 100, 2, SAMPLE_REBOOKING) == []
  {
    assert TIME_CHOICES[0].value == "09:00";
    assert IsBookableDoctor(SAMPLE_DOCTORS, 5) by { assert SAMPLE_DOCTORS[0].id == 5; }
    assert !SlotTaken(SAMPLE_ROWS, 5, 100, "09:00", 2);
  }

  /**
   * Under the uniqueness constraint as the table declares it, a cancelled appointment
   * keeps its slot: the query offers 09:00, the booking form accepts it, and the
   * insert is refused. Under the slot-holding rule the insert goes through.
   */
  lemma CancelledRowBlocksRebookingAsWritten()
    ensures TableInvariant(SAMPLE_ROWS) && UniqueTogether(SAMPLE_ROWS)
    ensures Offered(SAMPLE_ROWS, SAMPLE_DOCTORS, 5, 100, "09:00")
    ensures BookingErrors(SAMPLE_ROWS, SAMPLE_DOCTORS, 100, 2, SAMPLE_REBOOKING) == []
    ensures InsertAsWritten(SAMPLE_ROWS, BookedRow(User(10, Patient), SAMPLE_REBOOKING, 2)).None?
    ensures Insert(SAMPLE_ROWS, BookedRow(User(10, Patient), SAMPLE_REBOOKING, 2)).Some?
    ensures BookDecision(SAMPLE_ROWS, SAMPLE_DOCTORS, User(10, Patient), SAMPLE_REBOOKING, 2, 100) == Done
  {
    SampleTableShape();
    SampleSlotOffered();
    SampleFormAccepts();
    SampleInserts();
    assert IsBookableDoctor(SAMPLE_DOCTORS, 5) by { assert SAMPLE_DOCTORS[0].id == 5; }
    OfferedSlotIsBookable(SAMPLE_ROWS, SAMPLE_DOCTORS, User(10, Patient), SAMPLE_REBOOKING, 2, 100);
  }

  lemma SampleInserts()
    ensures IndexOf(SAMPLE_ROWS, 2).None?
    ensures InsertAsWritten(SAMPLE_ROWS, BookedRow(User(10, Patient), SAMPLE_REBOOKING, 2)).None?
    ensures Insert(SAMPLE_ROWS, BookedRow(User(10, Patient), SAMPLE_REBOOKING, 2)).Some?
  {
    var row := BookedRow(User(10, Patient), SAMPLE_REBOOKING, 2);
    assert SAMPLE_ROWS[0].id == 1;
    assert AnyClash(SAMPLE_ROWS, row) by {
      assert SAMPLE_ROWS[0].id != 2 && SameBooking(SAMPLE_ROWS[0], row);
    }
    assert !HoldsSlot(SAMPLE_ROWS[0].status);
  }

  const EDIT_ROWS: seq<Appointment> := SAMPLE_ROWS + [Appointment(2, 11, 5, 100, "09:30", Pending, "fever", "")]
  const EDIT_ONTO_CANCELLED: EditInput := EditInput(Some(100), "09:00", "fever")

  lemma EditSampleShape()
    ensures TableInvariant(EDIT_ROWS) && UniqueTogether(EDIT_ROWS)
    ensures IndexOf(EDIT_ROWS, 2) == Some(1)
  {
    assert TIME_CHOICES[0].value == "09:00" && TIME_CHOICES[1].value == "09:30";
    assert EDIT_ROWS[0].id == 1 && EDIT_ROWS[1].id == 2;
  }

  lemma EditSampleFormAccepts()
    ensures EditErrors(EDIT_ROWS, EDIT_ROWS[1], 100, EDIT_ONTO_CANCELLED) == []
  {
    assert TIME_CHOICES[0].value == "09:00";
    assert !SlotTaken(EDIT_ROWS, 5, 100, "09:00", 2) by {
      assert !HoldsSlot(EDIT_ROWS[0].status) && EDIT_ROWS[1].id == 2;
    }
  }

  lemma EditSampleSaves()
    ensures UpdateAsWritten(EDIT_ROWS, 1, EditedRow(EDIT_ROWS[1], EDIT_ONTO_CANCELLED)).None?
    ensures Update(EDIT_ROWS, 1, EditedRow(EDIT_ROWS[1], EDIT_ONTO_CANCELLED)).Some?
  {
    var b := EditedRow(EDIT_ROWS[1], EDIT_ONTO_CANCELLED);
    assert AnyClash(EDIT_ROWS, b) by {
      assert EDIT_ROWS[0].id != b.id && SameBooking(EDIT_ROWS[0], b);
    }
    assert !ActiveClash(EDIT_ROWS, b) by {
      assert !HoldsSlot(EDIT_ROWS[0].status) && EDIT_ROWS[1].id == b.id;
    }
  }

  /**
   * The edit path under the declared constraint: the patient moves a pending 09:30
   * appointment onto 09:00, held only by a cancelled row. The edit form accepts it and
   * the handler proceeds to save, which the declared constraint refuses; under the
   * slot-holding rule the save goes through.
   */
  lemma EditOntoCancelledSlotAsWritten()
    ensures TableInvariant(EDIT_ROWS) && UniqueTogether(EDIT_ROWS)
    ensures EditErrors(EDIT_ROWS, EDIT_ROWS[1], 100, EDIT_ONTO_CANCELLED) == []
    ensures EditDecision(EDIT_ROWS, User(11, Patient), 2, EDIT_ONTO_CANCELLED, 100, 100 * MINUTES_PER_DAY) == Done
    ensures UpdateAsWritten(EDIT_ROWS, 1, EditedRow(EDIT_ROWS[1], EDIT_ONTO_CANCELLED)).None?
    ensures Update(EDIT_ROWS, 1, EditedRow(EDIT_ROWS[1], EDIT_ONTO_CANCELLED)).Some?
  {
    EditSampleShape();
    EditSampleFormAccepts();
    EditSampleSaves();
    var a := EDIT_ROWS[1];
    assert a.slot == "09:30";
    ScheduleMinutesAt(1);
    assert TIME_CHOICES[1].value == "09:30";
    assert CanEdit(a, 100 * MINUTES_PER_DAY) by {
      assert StartsAt(a) == 100 * MINUTES_PER_DAY + 570;
    }
  }

  /**
   * Under the slot-holding rule, at most one appointment per doctor, date and slot is
   * active; a doctor reactivating a cancelled one whose slot was re-booked is refused.
   */
  lemma ReactivationOfRebookedSlotRejected()
    ensures var rows := SAMPLE_ROWS + [Appointment(2, 11, 5, 100, "09:00", Pending, "fever", "")];
      && TableInvariant(rows)
      && DoctorUpdateDecision(rows, SAMPLE_DOCTORS, User(20, Doctor), 1,
                              DoctorUpdateInput(Some(Confirmed), "")) == StorageRejected
  {
    var rows := SAMPLE_ROWS + [Appointment(2, 11, 5, 100, "09:00", Pending, "fever", "")];
    assert TIME_CHOICES[0].value == "09:00";
    assert rows[0].id == 1 && rows[1].id == 2;
    assert ActiveClash(rows, ApplyDoctorUpdate(rows[0], Confirmed, "")) by {
      assert rows[1].id != 1;
    }
  }
}
