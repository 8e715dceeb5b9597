/**
 * The request handlers of the appointment screens, reduced to what they decide:
 * the free-slot query, the "my appointments" list, and the guards and writes of
 * booking, editing, cancelling and the doctor's status update. The appointment
 * table is an object whose rows the handlers replace; the doctor profiles are
 * read-only input.
 */
module Views {

  import opened Wrappers
  import opened TimeSlots
  import opened Appointments
  import opened Forms

  // ---------------------------------------------------------------------------
  // Profile lookups.
  // ---------------------------------------------------------------------------

  predicate IsKnownDoctor(doctors: seq<DoctorProfile>, id: DoctorId)
  {
    exists i :: 0 <= i < |doctors| && doctors[i].id == id
  }

  /** The account a doctor profile belongs to. */
  function AccountOf(doctors: seq<DoctorProfile>, doctor: DoctorId): (r: Option<UserId>)
    ensures r.Some? ==> exists i :: 0 <= i < |doctors| && doctors[i].id == doctor && doctors[i].user == r.value
    ensures r.None? <==> !IsKnownDoctor(doctors, doctor)
  {
    if doctors == [] then None
    else if doctors[0].id == doctor then Some(doctors[0].user)
    else
      var r := AccountOf(doctors[1..], doctor);
      assert forall i :: 0 <= i < |doctors[1..]| ==> doctors[1..][i] == doctors[i + 1];
      r
  }

  /** The profile of a doctor account. */
  function ProfileOf(doctors: seq<DoctorProfile>, user: UserId): (r: Option<DoctorId>)
    ensures r.Some? ==> exists i :: 0 <= i < |doctors| && doctors[i].user == user && doctors[i].id == r.value
    ensures r.None? <==> forall i :: 0 <= i < |doctors| ==> doctors[i].user != user
  {
    if doctors == [] then None
    else if doctors[0].user == user then Some(doctors[0].id)
    else
      var r := ProfileOf(doctors[1..], user);
      assert forall i :: 0 <= i < |doctors[1..]| ==> doctors[1..][i] == doctors[i + 1];
      r
  }

  // ---------------------------------------------------------------------------
  // Free slots of a doctor on a date.
  // ---------------------------------------------------------------------------

  /** The `date` request parameter: absent or empty, not a date, or a day. */
  datatype DateParam = NoDate | Unparsable | OnDay(day: int)

  datatype SlotQueryError = MissingParameters | InvalidParameters

  datatype SlotResponse = SlotResponse(slots: seq<SlotChoice>, error: Option<SlotQueryError>)

  /** Slot values held by a pending or confirmed appointment of `doctor` on `date`. */
  function BookedSlots(rows: seq<Appointment>, doctor: DoctorId, date: int): set<string>
  {
    set i | 0 <= i < |rows| && rows[i].doctor == doctor && rows[i].date == date && HoldsSlot(rows[i].status)
      :: rows[i].slot
  }

  /** The entries of `choices` whose value is not booked, in their original order. */
  function FreeSlots(choices: seq<SlotChoice>, booked: set<string>): (r: seq<SlotChoice>)
    ensures forall c :: c in r <==> c in choices && c.value !in booked
    ensures |r| <= |choices|
  {
    if choices == [] then []
    else
      var rest := FreeSlots(choices[1..], booked);
      assert forall c :: c in choices <==> c == choices[0] || c in choices[1..];
      if choices[0].value in booked then rest else [choices[0]] + rest
  }

  /** Filtering distributes over concatenation: the relative order of the kept entries is the original one. */
  lemma {:induction false} FreeSlotsAppend(a: seq<SlotChoice>, b: seq<SlotChoice>, booked: set<string>)
    ensures FreeSlots(a + b, booked) == FreeSlots(a, booked) + FreeSlots(b, booked)
  {
    if a != [] {
      assert (a + b)[1..] == a[1..] + b;
      FreeSlotsAppend(a[1..], b, booked);
    } else {
      assert a + b == b;
    }
  }

  /** Clock values strictly ascending in time. */
  predicate Chronological(cs: seq<SlotChoice>)
  {
    && (forall i :: 0 <= i < |cs| ==> IsClock(cs[i].value))
    && (forall i, j :: 0 <= i < j < |cs| ==> ClockMinutes(cs[i].value) < ClockMinutes(cs[j].value))
  }

  lemma {:induction false} FreeSlotsChronological(cs: seq<SlotChoice>, booked: set<string>)
    requires Chronological(cs)
    ensures Chronological(FreeSlots(cs, booked))
  {
    if cs != [] {
      var tail := cs[1..];
      TailChronological(cs);
      FreeSlotsChronological(tail, booked);
      var rest := FreeSlots(tail, booked);
      if cs[0].value !in booked {
        assert FreeSlots(cs, booked) == [cs[0]] + rest;
        forall c | c in rest
          ensures ClockMinutes(cs[0].value) < ClockMinutes(c.value)
        {
          HeadPrecedesTail(cs, c);
        }
        ConsChronological(cs[0], rest);
      } else {
        assert FreeSlots(cs, booked) == rest;
      }
    }
  }

  lemma TailChronological(cs: seq<SlotChoice>)
    requires Chronological(cs) && cs != []
    ensures Chronological(cs[1..])
  {
    var tail := cs[1..];
    assert forall i :: 0 <= i < |tail| ==> tail[i] == cs[i + 1];
  }

  lemma HeadPrecedesTail(cs: seq<SlotChoice>, c: SlotChoice)
    requires Chronological(cs) && cs != [] && c in cs[1..]
    ensures IsClock(c.value) && ClockMinutes(cs[0].value) < ClockMinutes(c.value)
  {
    var j :| 0 <= j < |cs[1..]| && cs[1..][j] == c;
    assert cs[j + 1] == c;
  }

  lemma ConsChronological(x: SlotChoice, rest: seq<SlotChoice>)
    requires Chronological(rest) && IsClock(x.value)
    requires forall c | c in rest :: IsClock(c.value) && ClockMinutes(x.value) < ClockMinutes(c.value)
    ensures Chronological([x] + rest)
  {
    var r := [x] + rest;
    forall i | 0 <= i < |r| ensures IsClock(r[i].value) {
      if i > 0 { assert r[i] == rest[i - 1]; }
    }
    forall i, j | 0 <= i < j < |r|
      ensures ClockMinutes(r[i].value) < ClockMinutes(r[j].value)
    {
      assert r[j] == rest[j - 1];
      assert r[j] in rest;
      if i > 0 { assert r[i] == rest[i - 1]; }
    }
  }

  function ValuesOf(cs: seq<SlotChoice>): set<string>
  {
    set i | 0 <= i < |cs| :: cs[i].value
  }

  predicate DistinctValues(cs: seq<SlotChoice>)
  {
    forall i, j :: 0 <= i < j < |cs| ==> cs[i].value != cs[j].value
  }

  lemma ValuesOfCons(cs: seq<SlotChoice>)
    requires DistinctValues(cs) && cs != []
    ensures ValuesOf(cs) == {cs[0].value} + ValuesOf(cs[1..])
    ensures cs[0].value !in ValuesOf(cs[1..])
    ensures DistinctValues(cs[1..])
  {
    var tail := cs[1..];
    assert forall i :: 0 <= i < |tail| ==> tail[i] == cs[i + 1];
    forall x | x in ValuesOf(cs) ensures x in {cs[0].value} + ValuesOf(tail) {
      var i :| 0 <= i < |cs| && cs[i].value == x;
      if i > 0 { assert tail[i - 1] == cs[i]; }
    }
  }

  /** Over distinct values, filtering drops exactly one entry per booked value that occurs. */
  lemma {:induction false} FreeSlotsCount(cs: seq<SlotChoice>, booked: set<string>)
    requires DistinctValues(cs)
    ensures |FreeSlots(cs, booked)| == |cs| - |ValuesOf(cs) * booked|
  {
    if cs == [] {
      assert ValuesOf(cs) == {};
    } else {
      var tail := cs[1..];
      var v := cs[0].value;
      ValuesOfCons(cs);
      FreeSlotsCount(tail, booked);
      if v in booked {
        assert FreeSlots(cs, booked) == FreeSlots(tail, booked);
        assert ValuesOf(cs) * booked == {v} + ValuesOf(tail) * booked;
      } else {
        assert FreeSlots(cs, booked) == [cs[0]] + FreeSlots(tail, booked);
        assert ValuesOf(cs) * booked == ValuesOf(tail) * booked;
      }
    }
  }

  /**
   * The free-slot query. Both parameters must be present; then the doctor must exist
   * and the date must parse. The answer is the schedule minus the booked values.
   */
  function AvailableSlots(rows: seq<Appointment>, doctors: seq<DoctorProfile>,
                          doctor: Option<DoctorId>, date: DateParam): (resp: SlotResponse)
    ensures doctor.None? || date.NoDate? ==> resp == SlotResponse([], Some(MissingParameters))
    ensures doctor.Some? && !date.NoDate? && (!IsKnownDoctor(doctors, doctor.value) || date.Unparsable?) ==>
      resp == SlotResponse([], Some(InvalidParameters))
    ensures resp.error.None? <==> doctor.Some? && IsKnownDoctor(doctors, doctor.value) && date.OnDay?
    ensures resp.error.None? ==> forall c :: c in resp.slots <==>
      c in TIME_CHOICES && c.value !in BookedSlots(rows, doctor.value, date.day)
  {
    if doctor.None? || date.NoDate? then SlotResponse([], Some(MissingParameters))
    else if !IsKnownDoctor(doctors, doctor.value) || date.Unparsable? then SlotResponse([], Some(InvalidParameters))
    else SlotResponse(FreeSlots(TIME_CHOICES, BookedSlots(rows, doctor.value, date.day)), None)
  }

  /**
   * The free slots come in schedule order, ascending in time, and there are fourteen
   * minus the number of distinct booked values (all of which are listed in a stored table).
   */
  lemma AvailableSlotsShape(rows: seq<Appointment>, doctors: seq<DoctorProfile>, doctor: DoctorId, date: int)
    requires IsKnownDoctor(doctors, doctor)
    ensures var resp := AvailableSlots(rows, doctors, Some(doctor), OnDay(date));
      && resp.error.None?
      && Chronological(resp.slots)
      && |resp.slots| == 14 - |ValuesOf(TIME_CHOICES) * BookedSlots(rows, doctor, date)|
      && (TableInvariant(rows) ==> |resp.slots| == 14 - |BookedSlots(rows, doctor, date)|)
  {
    var booked := BookedSlots(rows, doctor, date);
    ScheduleShape();
    FreeSlotsChronological(TIME_CHOICES, booked);
    FreeSlotsCount(TIME_CHOICES, booked);
    if TableInvariant(rows) {
      assert booked <= ValuesOf(TIME_CHOICES) by {
        forall v | v in booked ensures v in ValuesOf(TIME_CHOICES) {
          var i :| 0 <= i < |rows| && rows[i].doctor == doctor && rows[i].date == date &&
            HoldsSlot(rows[i].status) && rows[i].slot == v;
          assert IsListedSlot(rows[i].slot);
        }
      }
      assert ValuesOf(TIME_CHOICES) * booked == booked;
    }
  }

  // ---------------------------------------------------------------------------
  // "My appointments".
  // ---------------------------------------------------------------------------

  /** Lexicographic order on strings, the order the slot column sorts in. */
  predicate StrLe(a: string, b: string)
  {
    if a == [] then true
    else if b == [] then false
    else if a[0] != b[0] then a[0] < b[0]
    else StrLe(a[1..], b[1..])
  }

  lemma {:induction false} StrLeTotal(a: string, b: string)
    ensures StrLe(a, b) || StrLe(b, a)
  {
    if a != [] && b != [] && a[0] == b[0] {
      StrLeTotal(a[1..], b[1..]);
    }
  }

  /** `a` is listed no later than `b` when sorting by date, then slot, both descending. */
  predicate NotOlder(a: Appointment, b: Appointment)
  {
    a.date > b.date || (a.date == b.date && StrLe(b.slot, a.slot))
  }

  predicate NewestFirst(s: seq<Appointment>)
  {
    forall i :: 0 <= i < |s| - 1 ==> NotOlder(s[i], s[i + 1])
  }

  function InsertNewestFirst(x: Appointment, s: seq<Appointment>): (r: seq<Appointment>)
    requires NewestFirst(s)
    ensures NewestFirst(r)
    ensures multiset(r) == multiset(s) + multiset{x}
    ensures r[0] == x || (s != [] && r[0] == s[0])
  {
    if s == [] then [x]
    else if NotOlder(x, s[0]) then [x] + s
    else
      StrLeTotal(x.slot, s[0].slot);
      var rest := InsertNewestFirst(x, s[1..]);
      assert s == [s[0]] + s[1..];
      [s[0]] + rest
  }

  function SortNewestFirst(s: seq<Appointment>): (r: seq<Appointment>)
    ensures NewestFirst(r)
    ensures multiset(r) == multiset(s)
  {
    if s == [] then []
    else
      assert s == [s[0]] + s[1..];
      InsertNewestFirst(s[0], SortNewestFirst(s[1..]))
  }

  /** Whose list an appointment appears in: a doctor sees their profile's, a patient their own. */
  predicate ShownTo(doctors: seq<DoctorProfile>, user: User, a: Appointment)
  {
    match user.role
    case Doctor => ProfileOf(doctors, user.id) == Some(a.doctor)
    case Patient => a.patient == user.id
  }

  /** An empty status filter keeps everything; otherwise the stored status must equal it. */
  predicate PassesStatusFilter(statusFilter: string, a: Appointment)
  {
    statusFilter == "" || StatusKey(a.status) == statusFilter
  }

  function SelectMine(rows: seq<Appointment>, doctors: seq<DoctorProfile>, user: User,
                      statusFilter: string): (r: seq<Appointment>)
    ensures forall a :: a in r <==> a in rows && ShownTo(doctors, user, a) && PassesStatusFilter(statusFilter, a)
    ensures multiset(r) <= multiset(rows)
  {
    if rows == [] then []
    else
      var rest := SelectMine(rows[1..], doctors, user, statusFilter);
      assert rows == [rows[0]] + rows[1..];
      if ShownTo(doctors, user, rows[0]) && PassesStatusFilter(statusFilter, rows[0])
      then [rows[0]] + rest
      else rest
  }

  /**
   * The list of a user's appointments, newest first. A doctor account without a
   * profile has no list (the handler fails).
   */
  function MyAppointments(rows: seq<Appointment>, doctors: seq<DoctorProfile>, user: User,
                          statusFilter: string): (r: Option<seq<Appointment>>)
    ensures r.None? <==> user.role == Doctor && ProfileOf(doctors, user.id).None?
    ensures r.Some? ==> NewestFirst(r.value)
    ensures r.Some? ==> forall a :: a in r.value <==>
      a in rows && ShownTo(doctors, user, a) && PassesStatusFilter(statusFilter, a)
    ensures r.Some? ==> multiset(r.value) <= multiset(rows)
  {
    if user.role == Doctor && ProfileOf(doctors, user.id).None? then None
    else
      var mine := SelectMine(rows, doctors, user, statusFilter);
      var sorted := SortNewestFirst(mine);
      assert forall a :: a in sorted <==> a in multiset(sorted);
      Some(sorted)
  }

  // ---------------------------------------------------------------------------
  // Guards and writes.
  // ---------------------------------------------------------------------------

  datatype Outcome =
    | Done
    | DoctorsCannotBook
    | NotFound
    | PermissionDenied
    | NotEditable
    | NotCancellable
    | OnlyDoctorsCanUpdate
    | MissingDoctorProfile
    | AwaitingConfirmation
    | InvalidForm(errors: seq<FormError>)
    | StorageRejected

  /** The row a successful booking adds: the requesting user as patient, status pending. */
  function BookedRow(user: User, input: BookingInput, id: AppointmentId): (a: Appointment)
    requires input.doctor.Some? && input.date.Some?
    ensures a.id == id && a.patient == user.id && a.status == Pending
  {
    NewAppointment(id, user.id, input.doctor.value, input.date.value, input.slot, input.reason)
  }

  /**
   * Booking: doctors are turned away; otherwise the form must be valid and the insert
   * must pass the table's rules. `id` is the key generated for the new row.
   */
  function BookDecision(rows: seq<Appointment>, doctors: seq<DoctorProfile>, user: User,
                        input: BookingInput, id: AppointmentId, today: int): (o: Outcome)
    ensures user.role == Doctor ==> o == DoctorsCannotBook
    ensures o == Done <==>
      user.role == Patient && BookingErrors(rows, doctors, today, id, input) == [] && IndexOf(rows, id).None?
    ensures o == Done ==> (input.doctor.Some? && input.date.Some? && IsListedSlot(input.slot) &&
      Insert(rows, BookedRow(user, input, id)) == Some(rows + [BookedRow(user, input, id)]))
  {
    if user.role == Doctor then DoctorsCannotBook
    else
      var errs := BookingErrors(rows, doctors, today, id, input);
      if errs != [] then InvalidForm(errs)
      else
        BookingFormExcludesClash(rows, doctors, user, input, id, today);
        if Insert(rows, BookedRow(user, input, id)).None? then StorageRejected
        else
          assert user.role == Patient;
          Done
  }

  /** A booking the form accepted never clashes: the form checked the very condition the table enforces. */
  lemma BookingFormExcludesClash(rows: seq<Appointment>, doctors: seq<DoctorProfile>, user: User,
                                 input: BookingInput, id: AppointmentId, today: int)
    requires BookingErrors(rows, doctors, today, id, input) == []
    ensures !ActiveClash(rows, BookedRow(user, input, id))
  {
  }

  /** Who may view or cancel: the assigned doctor's account, or the booking patient. */
  predicate MayActOn(doctors: seq<DoctorProfile>, user: User, a: Appointment)
  {
    match user.role
    case Doctor => AccountOf(doctors, a.doctor) == Some(user.id)
    case Patient => a.patient == user.id
  }

  /** Viewing one appointment: it must exist and the user must be its doctor or its patient. */
  function DetailDecision(rows: seq<Appointment>, doctors: seq<DoctorProfile>, user: User,
                          id: AppointmentId): (o: Outcome)
    ensures o == Done <==> (IndexOf(rows, id).Some? && MayActOn(doctors, user, rows[IndexOf(rows, id).value]))
    ensures o == Done || o == NotFound || o == PermissionDenied
  {
    match IndexOf(rows, id)
    case None => NotFound
    case Some(k) => if MayActOn(doctors, user, rows[k]) then Done else PermissionDenied
  }

  /** A row after an accepted edit: new date, slot and reason, everything else kept. */
  function EditedRow(a: Appointment, input: EditInput): (b: Appointment)
    requires input.date.Some?
    ensures b.date == input.date.value && b.slot == input.slot && b.reason == input.reason
    ensures b.(date := a.date, slot := a.slot, reason := a.reason) == a
  {
    a.(date := input.date.value, slot := input.slot, reason := input.reason)
  }

  /**
   * Editing: only the booking patient (never a doctor), only while the appointment
   * can be edited, and only with a valid form; the save then always passes.
   */
  function EditDecision(rows: seq<Appointment>, user: User, id: AppointmentId, input: EditInput,
                        today: int, now: int): (o: Outcome)
    requires TableInvariant(rows)
    ensures o == NotFound <==> IndexOf(rows, id).None?
    ensures user.role == Doctor ==> o == NotFound || o == PermissionDenied
    ensures o == Done <==> (IndexOf(rows, id).Some? &&
      var a := rows[IndexOf(rows, id).value];
      && user.role == Patient && a.patient == user.id
      && (ListedSlotIsClock(a.slot); CanEdit(a, now))
      && EditErrors(rows, a, today, input) == [])
    ensures o == Done ==> Update(rows, IndexOf(rows, id).value, EditedRow(rows[IndexOf(rows, id).value], input)).Some?
  {
    match IndexOf(rows, id)
    case None => NotFound
    case Some(k) =>
      var a := rows[k];
      ListedSlotIsClock(a.slot);
      if user.role == Doctor || a.patient != user.id then PermissionDenied
      else if !CanEdit(a, now) then NotEditable
      else
        var errs := EditErrors(rows, a, today, input);
        if errs != [] then InvalidForm(errs)
        else
          EditSaveSucceeds(rows, k, input, today);
          if Update(rows, k, EditedRow(a, input)).None? then StorageRejected else Done
  }

  /** An edit the form accepted never clashes: the form checked the very condition the table enforces. */
  lemma {:induction false} EditSaveSucceeds(rows: seq<Appointment>, k: nat, input: EditInput, today: int)
    requires k < |rows|
    requires EditErrors(rows, rows[k], today, input) == []
    ensures Update(rows, k, EditedRow(rows[k], input)).Some?
  {
  }

  /** A row after cancelling: status cancelled, everything else kept. */
  function CancelledRow(a: Appointment): (b: Appointment)
    ensures b.status == Cancelled && !HoldsSlot(b.status)
    ensures b.(status := a.status) == a
  {
    a.(status := Cancelled)
  }

  /**
   * Cancelling: the user must be the appointment's doctor or patient, the appointment
   * must still be cancellable, and the user must confirm (a plain visit only asks).
   */
  function CancelDecision(rows: seq<Appointment>, doctors: seq<DoctorProfile>, user: User,
                          id: AppointmentId, now: int, confirmed: bool): (o: Outcome)
    requires TableInvariant(rows)
    ensures o == NotFound <==> IndexOf(rows, id).None?
    ensures o == PermissionDenied <==> IndexOf(rows, id).Some? && !MayActOn(doctors, user, rows[IndexOf(rows, id).value])
    ensures o == Done <==> (IndexOf(rows, id).Some? &&
      var a := rows[IndexOf(rows, id).value];
      && MayActOn(doctors, user, a)
      && (ListedSlotIsClock(a.slot); CanCancel(a, now))
      && confirmed)
    ensures o in {Done, NotFound, PermissionDenied, NotCancellable, AwaitingConfirmation}
  {
    match IndexOf(rows, id)
    case None => NotFound
    case Some(k) =>
      var a := rows[k];
      ListedSlotIsClock(a.slot);
      if !MayActOn(doctors, user, a) then PermissionDenied
      else if !CanCancel(a, now) then NotCancellable
      else if !confirmed then AwaitingConfirmation
      else Done
  }

  /**
   * The doctor's update: only doctor accounts, only on appointments of their own
   * profile (any other id is not found), any of the four statuses, and the save
   * must pass the table's rules.
   */
  function DoctorUpdateDecision(rows: seq<Appointment>, doctors: seq<DoctorProfile>, user: User,
                                id: AppointmentId, input: DoctorUpdateInput): (o: Outcome)
    ensures user.role == Patient ==> o == OnlyDoctorsCanUpdate
    ensures o == Done <==> (IndexOf(rows, id).Some? &&
      var k := IndexOf(rows, id).value;
      && user.role == Doctor
      && ProfileOf(doctors, user.id) == Some(rows[k].doctor)
      && input.status.Some?
      && Update(rows, k, ApplyDoctorUpdate(rows[k], input.status.value, input.notes)).Some?)
    ensures user.role == Doctor && IndexOf(rows, id).Some? &&
      ProfileOf(doctors, user.id).Some? && ProfileOf(doctors, user.id) != Some(rows[IndexOf(rows, id).value].doctor)
      ==> o == NotFound
  {
    if user.role != Doctor then OnlyDoctorsCanUpdate
    else match ProfileOf(doctors, user.id)
      case None => MissingDoctorProfile
      case Some(p) =>
        match IndexOf(rows, id)
        case None => NotFound
        case Some(k) =>
          if rows[k].doctor != p then NotFound
          else
            var errs := DoctorUpdateErrors(input);
            if errs != [] then InvalidForm(errs)
            else if Update(rows, k, ApplyDoctorUpdate(rows[k], input.status.value, input.notes)).None? then StorageRejected
            else Done
  }

  // ---------------------------------------------------------------------------
  // The appointment table.
  // ---------------------------------------------------------------------------

  class AppointmentTable {

    var rows: seq<Appointment>

    ghost predicate Valid()
      reads this
    {
      TableInvariant(rows)
    }

    constructor ()
      ensures Valid() && rows == []
    {
      rows := [];
    }

    method Book(doctors: seq<DoctorProfile>, user: User, input: BookingInput, id: AppointmentId,
                today: int) returns (o: Outcome)
      requires Valid()
      modifies this
      ensures Valid()
      ensures o == BookDecision(old(rows), doctors, user, input, id, today)
      ensures rows == if o == Done then old(rows) + [BookedRow(user, input, id)] else old(rows)
    {
      o := BookDecision(rows, doctors, user, input, id, today);
      if o == Done {
        // form.save(commit=False), then the requesting user becomes the patient, then save.
        var a := NewAppointment(id, user.id, input.doctor.value, input.date.value, input.slot, input.reason);
        a := a.(patient := user.id);
        var saved := Insert(rows, a);
        rows := saved.value;
      }
    }

    method Edit(user: User, id: AppointmentId, input: EditInput, today: int, now: int) returns (o: Outcome)
      requires Valid()
      modifies this
      ensures Valid()
      ensures o == EditDecision(old(rows), user, id, input, today, now)
      ensures rows == if o == Done
        then old(rows)[IndexOf(old(rows), id).value := EditedRow(old(rows)[IndexOf(old(rows), id).value], input)]
        else old(rows)
    {
      o := EditDecision(rows, user, id, input, today, now);
      if o == Done {
        var k := IndexOf(rows, id).value;
        var a := rows[k];
        a := a.(date := input.date.value, slot := input.slot, reason := input.reason);
        var saved := Update(rows, k, a);
        rows := saved.value;
      }
    }

    method Cancel(doctors: seq<DoctorProfile>, user: User, id: AppointmentId, now: int,
                  confirmed: bool) returns (o: Outcome)
      requires Valid()
      modifies this
      ensures Valid()
      ensures o == CancelDecision(old(rows), doctors, user, id, now, confirmed)
      ensures rows == if o == Done
        then old(rows)[IndexOf(old(rows), id).value := CancelledRow(old(rows)[IndexOf(old(rows), id).value])]
        else old(rows)
    {
      o := CancelDecision(rows, doctors, user, id, now, confirmed);
      if o == Done {
        var k := IndexOf(rows, id).value;
        var a := rows[k];
        a := a.(status := Cancelled);
        ReleasingSaveSucceeds(rows, k, a);
        var saved := Update(rows, k, a);
        rows := saved.value;
      }
    }

    method DoctorUpdate(doctors: seq<DoctorProfile>, user: User, id: AppointmentId,
                        input: DoctorUpdateInput) returns (o: Outcome)
      requires Valid()
      modifies this
      ensures Valid()
      ensures o == DoctorUpdateDecision(old(rows), doctors, user, id, input)
      ensures rows == if o == Done
        then old(rows)[IndexOf(old(rows), id).value :=
          ApplyDoctorUpdate(old(rows)[IndexOf(old(rows), id).value], input.status.value, input.notes)]
        else old(rows)
    {
      o := DoctorUpdateDecision(rows, doctors, user, id, input);
      if o == Done {
        var k := IndexOf(rows, id).value;
        var a := rows[k];
        a := a.(status := input.status.value, notes := input.notes);
        var saved := Update(rows, k, a);
        rows := saved.value;
      }
    }
  }
}
