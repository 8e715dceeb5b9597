/**
 * The clinic's fixed daily schedule: fourteen half-hour slot values shared by
 * the weekly availability templates, the appointments and the slot endpoint,
 * each stored as an "HH:MM" string with a display label.
 */
module TimeSlots {

  import opened Wrappers

  /** One entry of the schedule: the stored value and the label shown for it. */
  datatype SlotChoice = SlotChoice(value: string, display: string)

  /** The schedule in its declared order: 09:00-12:00 and 14:00-17:00 every 30 minutes. */
  const TIME_CHOICES: seq<SlotChoice> := [
    SlotChoice("09:00", "09:00 AM"),
    SlotChoice("09:30", "09:30 AM"),
    SlotChoice("10:00", "10:00 AM"),
    SlotChoice("10:30", "10:30 AM"),
    SlotChoice("11:00", "11:00 AM"),
    SlotChoice("11:30", "11:30 AM"),
    SlotChoice("12:00", "12:00 PM"),
    SlotChoice("14:00", "02:00 PM"),
    SlotChoice("14:30", "02:30 PM"),
    SlotChoice("15:00", "03:00 PM"),
    SlotChoice("15:30", "03:30 PM"),
    SlotChoice("16:00", "04:00 PM"),
    SlotChoice("16:30", "04:30 PM"),
    SlotChoice("17:00", "05:00 PM")
  ]

  const MINUTES_PER_DAY: nat := 1440

  /** A value is listed when some schedule entry stores it (the field's `choices`). */
  predicate IsListedSlot(v: string)
  {
    exists i :: 0 <= i < |TIME_CHOICES| && TIME_CHOICES[i].value == v
  }

  predicate IsDigit(c: char)
  {
    '0' <= c <= '9'
  }

  function DigitValue(c: char): (d: nat)
    requires IsDigit(c)
    ensures d < 10
  {
    c as int - '0' as int
  }

  /** A zero-padded 24-hour "HH:MM" clock value, the form the slot values are parsed with. */
  predicate IsClock(v: string)
  {
    && |v| == 5
    && IsDigit(v[0]) && IsDigit(v[1]) && v[2] == ':' && IsDigit(v[3]) && IsDigit(v[4])
    && DigitValue(v[0]) * 10 + DigitValue(v[1]) < 24
    && DigitValue(v[3]) * 10 + DigitValue(v[4]) < 60
  }

  /** Minutes since midnight of an "HH:MM" value. */
  function ClockMinutes(v: string): (m: nat)
    requires IsClock(v)
    ensures m < MINUTES_PER_DAY
  {
    (DigitValue(v[0]) * 10 + DigitValue(v[1])) * 60 + DigitValue(v[3]) * 10 + DigitValue(v[4])
  }

  /** The minute of day of every schedule entry, in schedule order (used in proofs only). */
  ghost const SCHEDULE_MINUTES: seq<nat> :=
    [540, 570, 600, 630, 660, 690, 720, 840, 870, 900, 930, 960, 990, 1020]

  lemma {:induction false} ScheduleMinutesAt(i: nat)
    requires i < |TIME_CHOICES|
    ensures IsClock(TIME_CHOICES[i].value)
    ensures ClockMinutes(TIME_CHOICES[i].value) == SCHEDULE_MINUTES[i]
  {
    var v := TIME_CHOICES[i].value;
    if i == 0 { assert v == "09:00"; }
    else if i == 1 { assert v == "09:30"; }
    else if i == 2 { assert v == "10:00"; }
    else if i == 3 { assert v == "10:30"; }
    else if i == 4 { assert v == "11:00"; }
    else if i == 5 { assert v == "11:30"; }
    else if i == 6 { assert v == "12:00"; }
    else if i == 7 { assert v == "14:00"; }
    else if i == 8 { assert v == "14:30"; }
    else if i == 9 { assert v == "15:00"; }
    else if i == 10 { assert v == "15:30"; }
    else if i == 11 { assert v == "16:00"; }
    else if i == 12 { assert v == "16:30"; }
    else { assert v == "17:00"; }
  }

  /**
   * The shape of the schedule: fourteen clock values, strictly ascending in time
   * (hence distinct), on the half hour, between 09:00 and 17:00, with nothing
   * strictly between 12:00 and 14:00.
   */
  lemma {:induction false} ScheduleShape()
    ensures |TIME_CHOICES| == 14
    ensures forall i :: 0 <= i < |TIME_CHOICES| ==> IsClock(TIME_CHOICES[i].value)
    ensures forall i, j :: 0 <= i < j < |TIME_CHOICES| ==>
      ClockMinutes(TIME_CHOICES[i].value) < ClockMinutes(TIME_CHOICES[j].value)
    ensures forall i, j :: 0 <= i < j < |TIME_CHOICES| ==> TIME_CHOICES[i].value != TIME_CHOICES[j].value
    ensures forall i :: 0 <= i < |TIME_CHOICES| ==>
      && ClockMinutes(TIME_CHOICES[i].value) % 30 == 0
      && 9 * 60 <= ClockMinutes(TIME_CHOICES[i].value) <= 17 * 60
      && !(12 * 60 < ClockMinutes(TIME_CHOICES[i].value) < 14 * 60)
  {
    forall i | 0 <= i < |TIME_CHOICES|
      ensures IsClock(TIME_CHOICES[i].value)
      ensures ClockMinutes(TIME_CHOICES[i].value) == SCHEDULE_MINUTES[i]
    {
      ScheduleMinutesAt(i);
    }
  }

  /** Every listed value is a clock value. */
  lemma ListedSlotIsClock(v: string)
    requires IsListedSlot(v)
    ensures IsClock(v)
  {
    ScheduleShape();
  }

  /** The label stored with `v` in `choices`, searching in order. */
  function LabelIn(choices: seq<SlotChoice>, v: string): (r: Option<string>)
    ensures r.Some? <==> exists i :: 0 <= i < |choices| && choices[i].value == v
    ensures r.Some? ==> exists i :: 0 <= i < |choices| && choices[i] == SlotChoice(v, r.value)
  {
    if choices == [] then None
    else if choices[0].value == v then Some(choices[0].display)
    else
      var r := LabelIn(choices[1..], v);
      assert forall i :: 0 <= i < |choices[1..]| ==> choices[1..][i] == choices[i + 1];
      assert r.Some? ==> exists i :: 0 <= i < |choices[1..]| && choices[1..][i] == SlotChoice(v, r.value);
      r
  }

  /**
   * The label paired with a slot value, or the value itself when it is not listed.
   * Schedule values are distinct, so the label is the one declared beside the value.
   */
  function TimeDisplay(v: string): (shown: string)
    ensures forall i :: 0 <= i < |TIME_CHOICES| && TIME_CHOICES[i].value == v ==>
      shown == TIME_CHOICES[i].display
    ensures !IsListedSlot(v) ==> shown == v
  {
    ScheduleShape();
    match LabelIn(TIME_CHOICES, v)
    case Some(l) => l
    case None => v
  }

  /** A doctor's recurring weekly availability entry; Monday is day 0. */
  datatype TimeSlotTemplate = TimeSlotTemplate(
    doctor: nat,
    dayOfWeek: int,
    startTime: string,
    isAvailable: bool)

  predicate SameTemplateKey(a: TimeSlotTemplate, b: TimeSlotTemplate)
  {
    a.doctor == b.doctor && a.dayOfWeek == b.dayOfWeek && a.startTime == b.startTime
  }

  /** The field choices a stored template satisfies: a weekday 0..6 and a listed start time. */
  predicate ValidTemplate(t: TimeSlotTemplate)
  {
    0 <= t.dayOfWeek <= 6 && IsListedSlot(t.startTime)
  }

  /** The stored templates: each valid, and (doctor, day_of_week, start_time) unique. */
  predicate TemplatesWellFormed(ts: seq<TimeSlotTemplate>)
  {
    && (forall i :: 0 <= i < |ts| ==> ValidTemplate(ts[i]))
    && (forall i, j :: 0 <= i < j < |ts| ==> !SameTemplateKey(ts[i], ts[j]))
  }

  datatype TemplateError = InvalidDayOfWeek | InvalidStartTime | DuplicateSlot

  /** Storing a new template under its field choices and its uniqueness constraint. */
  function AddTemplate(ts: seq<TimeSlotTemplate>, t: TimeSlotTemplate): (r: TemplateResult)
    ensures r.Stored? <==>
      ValidTemplate(t) && forall i :: 0 <= i < |ts| ==> !SameTemplateKey(ts[i], t)
    ensures r.Stored? ==> r.templates == ts + [t]
    ensures r.Rejected? && ValidTemplate(t) ==> r.error == DuplicateSlot
    ensures TemplatesWellFormed(ts) && r.Stored? ==> TemplatesWellFormed(r.templates)
  {
    if !(0 <= t.dayOfWeek <= 6) then Rejected(InvalidDayOfWeek)
    else if !IsListedSlot(t.startTime) then Rejected(InvalidStartTime)
    else if exists i :: 0 <= i < |ts| && SameTemplateKey(ts[i], t) then Rejected(DuplicateSlot)
    else
      var r := ts + [t];
      assert forall i :: 0 <= i < |ts| ==> r[i] == ts[i];
      Stored(r)
  }

  datatype TemplateResult = Stored(templates: seq<TimeSlotTemplate>) | Rejected(error: TemplateError)
}
