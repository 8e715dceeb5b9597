/**
 * The appointment record, its derived predicates (upcoming, cancellable, editable)
 * and the rules the appointment table keeps when a row is written.
 *
 * Dates are day numbers; a point in time is a minute count, day * 1440 plus the
 * minute of the day, so "now" is passed in rather than read from a clock.
 */
module Appointments {

  import opened Wrappers
  import opened TimeSlots

  type UserId = nat
  type DoctorId = nat
  type AppointmentId = nat

  /** The two account kinds (`user_type`). */
  datatype Role = Patient | Doctor

  datatype User = User(id: UserId, role: Role)

  /** A doctor's profile: its own id, the account it belongs to, and whether it takes bookings. */
  datatype DoctorProfile = DoctorProfile(
    id: DoctorId,
    user: UserId,
    specialization: string,
    isAvailable: bool)

  datatype Status = Pending | Confirmed | Completed | Cancelled

  /** The stored form of a status, the key the status filter is compared with. */
  function StatusKey(s: Status): (k: string)
    ensures k in {"pending", "confirmed", "completed", "cancelled"}
  {
    match s
    case Pending => "pending"
    case Confirmed => "confirmed"
    case Completed => "completed"
    case Cancelled => "cancelled"
  }

  lemma StatusKeyInjective(s: Status, t: Status)
    ensures StatusKey(s) == StatusKey(t) <==> s == t
  {
  }

  /** Pending and confirmed appointments still occupy their slot; the other two are terminal. */
  predicate HoldsSlot(s: Status)
  {
    s == Pending || s == Confirmed
  }

  datatype Appointment = Appointment(
    id: AppointmentId,
    patient: UserId,
    doctor: DoctorId,
    date: int,
    slot: string,
    status: Status,
    reason: string,
    notes: string)

  /** A freshly created appointment: status left at its default and no doctor notes. */
  function NewAppointment(id: AppointmentId, patient: UserId, doctor: DoctorId, date: int,
                          slot: string, reason: string): (a: Appointment)
    ensures a.status == Pending && HoldsSlot(a.status) && a.notes == ""
    ensures a.id == id && a.patient == patient && a.doctor == doctor
    ensures a.date == date && a.slot == slot && a.reason == reason
  {
    Appointment(id, patient, doctor, date, slot, Pending, reason, "")
  }

  /** The moment the appointment starts: its date combined with its slot's clock time. */
  function StartsAt(a: Appointment): int
    requires IsClock(a.slot)
  {
    a.date * MINUTES_PER_DAY + ClockMinutes(a.slot)
  }

  /**
   * The appointment starts strictly after `now`: on a later day than now's, or on
   * now's day at a later minute.
   */
  predicate IsUpcoming(a: Appointment, now: int): (b: bool)
    requires IsClock(a.slot)
    ensures b <==> (a.date > now / MINUTES_PER_DAY ||
      (a.date == now / MINUTES_PER_DAY && ClockMinutes(a.slot) > now % MINUTES_PER_DAY))
  {
    var day, minute := now / MINUTES_PER_DAY, now % MINUTES_PER_DAY;
    assert now == day * MINUTES_PER_DAY + minute;
    assert a.date > day ==> a.date * MINUTES_PER_DAY >= day * MINUTES_PER_DAY + MINUTES_PER_DAY;
    assert a.date < day ==> a.date * MINUTES_PER_DAY + MINUTES_PER_DAY <= day * MINUTES_PER_DAY;
    StartsAt(a) > now
  }

  predicate CanCancel(a: Appointment, now: int): (b: bool)
    requires IsClock(a.slot)
    ensures b ==> a.status == Pending || a.status == Confirmed
    ensures a.status == Completed || a.status == Cancelled ==> !b
    ensures a.status == Pending || a.status == Confirmed ==> (b <==> IsUpcoming(a, now))
  {
    HoldsSlot(a.status) && IsUpcoming(a, now)
  }

  predicate CanEdit(a: Appointment, now: int): (b: bool)
    requires IsClock(a.slot)
    ensures b == CanCancel(a, now)
  {
    HoldsSlot(a.status) && IsUpcoming(a, now)
  }

  /**
   * Combining date and time: for a present moment on day `today` at minute `minute`,
   * the appointment is upcoming iff it is on a later day, or on the same day at a
   * strictly later clock time. An appointment starting exactly now is not upcoming.
   */
  lemma {:induction false} UpcomingByDateThenTime(a: Appointment, today: int, minute: nat)
    requires IsClock(a.slot)
    requires minute < MINUTES_PER_DAY
    ensures IsUpcoming(a, today * MINUTES_PER_DAY + minute) <==>
      a.date > today || (a.date == today && ClockMinutes(a.slot) > minute)
    ensures !IsUpcoming(a, StartsAt(a))
  {
    var m := ClockMinutes(a.slot);
    if a.date > today {
      assert a.date * MINUTES_PER_DAY >= today * MINUTES_PER_DAY + MINUTES_PER_DAY;
    } else if a.date < today {
      assert a.date * MINUTES_PER_DAY + MINUTES_PER_DAY <= today * MINUTES_PER_DAY;
    }
  }

  /**
   * Cancelling and editing are allowed under one and the same condition, and never
   * for a completed or cancelled appointment, whatever its date.
   */
  lemma CancelAndEditCoincide(a: Appointment, now: int)
    requires IsClock(a.slot)
    ensures CanCancel(a, now) == CanEdit(a, now)
    ensures CanCancel(a, now) <==> (a.status == Pending || a.status == Confirmed) && StartsAt(a) > now
    ensures a.status == Completed || a.status == Cancelled ==> !CanCancel(a, now) && !CanEdit(a, now)
  {
  }

  // ---------------------------------------------------------------------------
  // The table and the rules a write must respect.
  // ---------------------------------------------------------------------------

  /** Two rows for the same doctor, date and slot. */
  predicate SameBooking(a: Appointment, b: Appointment)
  {
    a.doctor == b.doctor && a.date == b.date && a.slot == b.slot
  }

  predicate UniqueIds(rows: seq<Appointment>)
  {
    forall i, j :: 0 <= i < j < |rows| ==> rows[i].id != rows[j].id
  }

  /** The uniqueness the booking engine means: at most one slot-holding row per (doctor, date, slot). */
  predicate ActiveBookingsUnique(rows: seq<Appointment>)
  {
    forall i, j :: 0 <= i < j < |rows| && SameBooking(rows[i], rows[j]) ==>
      !(HoldsSlot(rows[i].status) && HoldsSlot(rows[j].status))
  }

  /** The uniqueness the table declares: (doctor, date, slot) unique over rows of every status. */
  predicate UniqueTogether(rows: seq<Appointment>)
  {
    forall i, j :: 0 <= i < j < |rows| ==> !SameBooking(rows[i], rows[j])
  }

  /** What every stored table satisfies: distinct ids, listed slots, one active row per slot. */
  predicate TableInvariant(rows: seq<Appointment>)
  {
    && UniqueIds(rows)
    && (forall i :: 0 <= i < |rows| ==> IsListedSlot(rows[i].slot))
    && ActiveBookingsUnique(rows)
  }

  /** The position of the row with id `id`, if any. */
  function IndexOf(rows: seq<Appointment>, id: AppointmentId): (r: Option<nat>)
    ensures r.Some? ==> r.value < |rows| && rows[r.value].id == id
    ensures r.None? <==> forall i :: 0 <= i < |rows| ==> rows[i].id != id
  {
    if rows == [] then None
    else if rows[0].id == id then Some(0)
    else match IndexOf(rows[1..], id)
      case Some(k) => Some(k + 1)
      case None => None
  }

  /** Another row, other than `a`'s own, holding `a`'s slot while `a` holds it too. */
  predicate ActiveClash(rows: seq<Appointment>, a: Appointment)
  {
    HoldsSlot(a.status) &&
    exists i :: 0 <= i < |rows| && rows[i].id != a.id && SameBooking(rows[i], a) && HoldsSlot(rows[i].status)
  }

  /** Another row, other than `a`'s own, for the same doctor, date and slot, whatever its status. */
  predicate AnyClash(rows: seq<Appointment>, a: Appointment)
  {
    exists i :: 0 <= i < |rows| && rows[i].id != a.id && SameBooking(rows[i], a)
  }

  /**
   * Inserting a new row under the unique_together constraint as the table declares it:
   * any row for the same doctor, date and slot refuses the insert, cancelled or not.
   */
  function InsertAsWritten(rows: seq<Appointment>, a: Appointment): (r: Option<seq<Appointment>>)
    ensures r.Some? <==> IndexOf(rows, a.id).None? && !AnyClash(rows, a)
    ensures r.Some? ==> r.value == rows + [a]
  {
    if IndexOf(rows, a.id).Some? || AnyClash(rows, a) then None else Some(rows + [a])
  }

  /**
   * Inserting a new row under the uniqueness the booking engine means: only a
   * pending or confirmed row for the same doctor, date and slot refuses it;
   * a repeated primary key refuses it too.
   */
  function Insert(rows: seq<Appointment>, a: Appointment): (r: Option<seq<Appointment>>)
    ensures r.Some? <==> IndexOf(rows, a.id).None? && !ActiveClash(rows, a)
    ensures r.Some? ==> r.value == rows + [a]
    ensures r.Some? && TableInvariant(rows) && IsListedSlot(a.slot) ==> TableInvariant(r.value)
  {
    if IndexOf(rows, a.id).Some? || ActiveClash(rows, a) then None
    else
      var r := rows + [a];
      assert forall i :: 0 <= i < |rows| ==> r[i] == rows[i];
      Some(r)
  }

  /**
   * Saving an existing row at position `k` with new contents `b` (same id), refused
   * when `b` would hold a slot another active row holds.
   */
  function Update(rows: seq<Appointment>, k: nat, b: Appointment): (r: Option<seq<Appointment>>)
    requires k < |rows| && rows[k].id == b.id
    ensures r.Some? <==> !ActiveClash(rows, b)
    ensures r.Some? ==> r.value == rows[k := b]
    ensures r.Some? && TableInvariant(rows) && IsListedSlot(b.slot) ==> TableInvariant(r.value)
  {
    if ActiveClash(rows, b) then None
    else
      var r := rows[k := b];
      assert forall i :: 0 <= i < |rows| && i != k ==> r[i] == rows[i];
      Some(r)
  }

  /**
   * Saving an existing row at position `k` under the unique_together constraint as the
   * table declares it: any other row with the same doctor, date and slot, of any
   * status, refuses the save.
   */
  function UpdateAsWritten(rows: seq<Appointment>, k: nat, b: Appointment): (r: Option<seq<Appointment>>)
    requires k < |rows| && rows[k].id == b.id
    ensures r.Some? <==> !AnyClash(rows, b)
    ensures r.Some? ==> r.value == rows[k := b]
  {
    if AnyClash(rows, b) then None else Some(rows[k := b])
  }

  /** A row that no longer holds its slot can always be saved. */
  lemma {:induction false} ReleasingSaveSucceeds(rows: seq<Appointment>, k: nat, b: Appointment)
    requires k < |rows| && rows[k].id == b.id
    requires !HoldsSlot(b.status)
    ensures Update(rows, k, b).Some?
  {
  }
}
