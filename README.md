# Smart health appointments: a verified model of the booking engine and the symptom matcher

This project is a Dafny model of two parts of a clinic web application.

- **The appointment booking engine.** It covers:
  - the fixed daily schedule of fourteen half-hour slots;
  - the appointment record and its upcoming, cancellable and editable predicates;
  - the booking, edit and doctor-update forms;
  - the free-slot query and the "my appointments" list;
  - the guards and writes of booking, viewing, editing, cancelling and the doctor's status update.
- **The keyword symptom matcher.** For each knowledge-base entry, it finds the first keyword that occurs in the patient's description, ignoring case. It sorts the matches most urgent first with a stable sort and recommends the head.

The modules follow the source files:

| file | module | models |
|---|---|---|
| `time_slots.dfy` | `TimeSlots` | `TimeSlot.TIME_CHOICES`, the `HH:MM` clock value, `get_time_display`, the weekly `TimeSlot` templates |
| `appointment.dfy` | `Appointments` | `Appointment`, its status, its predicates, and the table's write rules |
| `forms.dfy` | `Forms` | the three forms, as error lists |
| `views.dfy` | `Views` | the request handlers, as decision functions, plus the class `AppointmentTable`, whose methods change its rows |
| `booking_properties.dfy` | `BookingProperties` | properties that relate several handlers |
| `analyzer.dfy` | `SymptomChecker` | `SymptomAnalyzer` |
| `wrappers.dfy` | `Wrappers` | `Option` |

How the model represents the source:

- **Time.** Today is a day number. Now is an absolute minute: day × 1440 + minute of the day. Both are parameters, never read from a clock.
- **Identifiers.** Primary keys are natural numbers.
- **The database.** The appointment table is a sequence of rows. It is the field `rows` of `Views.AppointmentTable`, and its methods `Book`, `Edit`, `Cancel` and `DoctorUpdate` replace it.
  - Each method is proved against the pure decision function of its handler and the row update it performs.
  - Each method keeps the table invariant: distinct ids, listed slots, and at most one pending or confirmed row per doctor, date and slot.
- **The analyzer.** `Analyze` and `SpecialtySymptoms` are methods with the source's loops: nested loops with a `break`, and an appending loop. They are proved against the functions `CollectMatches`, `SortByUrgency` and `EntriesFor`. `AllSpecialties` returns the loaded specialty table unchanged.

The free-slot query is a function of the table, so it is read-only: equal tables give equal answers.

Three behaviours could be read as slips but are what the code does, and the model keeps them:

- **Status changes.** The doctor update form accepts any of the four statuses from any status. There is no transition table (`Forms.AnyStatusAccepted`).
- **Another doctor's appointment.** The doctor-update handler looks the appointment up restricted to the doctor's own profile. So another doctor's appointment is "not found" (a 404), not "permission denied" (`Views.DoctorUpdateDecision`).
- **Weekly templates.** The free-slot query does not consult the doctor's weekly `TimeSlot` templates. Every schedule slot not held by a pending or confirmed appointment is offered.

One storage rule departs from the code. The declared `unique_together` key covers rows of every status (appointments/models.py:64). The booking form's clash check and the free-slot query count only pending and confirmed rows as holding a slot. The model stores rows under that slot-holding rule (`Appointments.Insert`, `Appointments.Update`). The declared rule is kept beside it, as `Appointments.InsertAsWritten` and `Appointments.UpdateAsWritten`, and the case where the two differ is under "## Findings".

## Model

| member | source | states |
|---|---|---|
| TimeSlots.ScheduleShape | appointments/models.py:12-27 | the schedule has 14 clock values, strictly ascending in time and therefore distinct, all on the half hour between 09:00 and 17:00, none strictly between 12:00 and 14:00 |
| TimeSlots.ClockMinutes | appointments/models.py:72 | an `HH:MM` value parsed as a time of day is a minute count below 1440 |
| TimeSlots.ListedSlotIsClock | appointments/models.py:55 | every value a slot field accepts parses as `HH:MM` |
| TimeSlots.LabelIn | appointments/models.py:84-85 | a lookup in the choice list finds a label exactly when some entry stores the value, and the label found is stored beside that value |
| TimeSlots.TimeDisplay | appointments/models.py:83-85 | the displayed time is the label paired with the slot in the schedule, or the raw value when the value is not listed |
| TimeSlots.AddTemplate | appointments/models.py:28-38 | a weekly template is stored iff its weekday is 0..6, its start time is listed and its (doctor, weekday, start time) is new; storing appends it and keeps the templates well formed; a valid but repeated key is refused as a duplicate |
| Appointments.StatusKey | appointments/models.py:46-51 | every status is stored as one of the four keys |
| Appointments.StatusKeyInjective | appointments/models.py:46-51 | distinct statuses have distinct stored keys |
| Appointments.NewAppointment | appointments/models.py:52-58 | a new appointment is pending, so it holds its slot, and has empty doctor notes |
| Appointments.IsUpcoming | appointments/models.py:69-73 | at absolute minute `now`, an appointment is upcoming iff its date is after now's day, or on now's day at a clock time strictly later than now's minute of the day |
| Appointments.CanCancel | appointments/models.py:75-77 | only a pending or confirmed appointment can be cancelled, never a completed or cancelled one; a pending or confirmed one can be cancelled iff it is upcoming |
| Appointments.CanEdit | appointments/models.py:79-81 | the edit condition is exactly the cancel condition |
| Appointments.UpcomingByDateThenTime | appointments/models.py:69-73 | an appointment is upcoming iff its date is later than today, or it is today at a strictly later clock time; one that starts exactly now is not upcoming |
| Appointments.CancelAndEditCoincide | appointments/models.py:75-81 | can-cancel and can-edit are the same predicate: pending or confirmed, and upcoming; a completed or cancelled appointment is neither, whatever its date |
| Appointments.IndexOf | appointments/views.py:57 | the lookup by id finds a row with that id, and finds nothing iff no row has it |
| Appointments.InsertAsWritten | appointments/models.py:64 | under `unique_together` as declared, an insert succeeds iff its key is new and no row of any status has the same doctor, date and slot |
| Appointments.Insert | appointments/models.py:64 | under the slot-holding rule, an insert succeeds iff its key is new and no other pending or confirmed row holds the slot; the new table is the old one plus the row, and the table invariant is kept |
| Appointments.UpdateAsWritten | appointments/models.py:64 | under `unique_together` as declared, saving an existing row succeeds iff no other row of any status has its doctor, date and slot; it replaces just that row |
| Appointments.Update | appointments/models.py:64 | under the slot-holding rule, saving an existing row succeeds iff its new contents do not clash with another pending or confirmed row; it replaces just that row and keeps the table invariant |
| Appointments.ReleasingSaveSucceeds | appointments/models.py:64 | saving a row that no longer holds its slot (cancelled or completed) always succeeds |
| Forms.BookingDateError | appointments/forms.py:32-38 | a booking date is accepted iff today ≤ date ≤ today + 30; an earlier date gives the past-date error and a later one the too-far-ahead error, never both |
| Forms.BookingWindowBounds | appointments/forms.py:32-38 | both window bounds are inclusive: today and today + 30 pass, yesterday and today + 31 fail |
| Forms.BookingErrors | appointments/forms.py:8-59 | a booking form is valid iff the doctor is an available one, the date is in the window, the slot is listed, the reason is given and no other pending or confirmed row holds the slot; the clash error appears iff the three fields passed and the slot is held; a date error excludes the other date error |
| Forms.TerminalRowsNeverConflict | appointments/forms.py:46-53 | cancelled and completed rows never make a slot taken: adding any number of them changes no clash check |
| Forms.OwnRowIsNoConflict | appointments/forms.py:54-55 | in a stored table, re-submitting an active appointment at its own doctor, date and slot is no clash, because the row itself is excluded |
| Forms.EditDateError | appointments/forms.py:80-84 | an edit date is accepted iff it is not in the past, and the only error is the past-date one |
| Forms.EditErrors | appointments/forms.py:62-101 | an edit form is valid iff the date is not past, the slot is listed, the reason is given and no other active row of the appointment's own doctor holds the slot; the clash error appears iff date and slot passed and the slot is held; there is never an upper-bound error |
| Forms.EditHasNoUpperBound | appointments/forms.py:80-84 | a date past the booking window passes the edit form but fails the booking form |
| Forms.DoctorUpdateErrors | appointments/forms.py:104-107 | the doctor update form is valid iff the submitted status is one of the four choices |
| Forms.ApplyDoctorUpdate | appointments/forms.py:104-107 | the doctor update sets status and notes and leaves every other field as it was |
| Forms.AnyStatusAccepted | appointments/forms.py:104-107 | every status is accepted from every current status |
| Views.AccountOf | appointments/views.py:61 | the account found for a doctor profile belongs to that profile, and nothing is found iff the profile does not exist |
| Views.ProfileOf | appointments/views.py:40 | the profile found for a doctor account belongs to that account, and nothing is found iff the account has no profile |
| Views.FreeSlots | appointments/views.py:180-184 | an entry is kept iff it is in the schedule and its value is not booked |
| Views.FreeSlotsAppend | appointments/views.py:180-184 | filtering distributes over concatenation, so the kept entries stay in schedule order |
| Views.FreeSlotsChronological | appointments/views.py:170-184 | filtering a chronological list of slots leaves a chronological list |
| Views.FreeSlotsCount | appointments/views.py:180-184 | the number of free entries is the schedule length minus the number of booked values that appear in the schedule |
| Views.AvailableSlots | appointments/views.py:154-186 | a missing parameter gives an empty list with the missing-parameters error; an unknown doctor or unparsable date gives an empty list with the invalid-parameters error; otherwise there is no error and the slots are exactly the schedule entries not held by a pending or confirmed appointment of that doctor on that date |
| Views.AvailableSlotsShape | appointments/views.py:169-186 | the free slots are in ascending clock order; there are 14 minus the number of distinct booked values, and in a stored table that is 14 minus the number of booked slots |
| Views.StrLeTotal | appointments/views.py:40 | the order on slot strings is total, so any two appointments can be ordered |
| Views.InsertNewestFirst | appointments/views.py:40-42 | inserting into a list ordered by date, then slot, descending keeps it ordered and adds exactly one row |
| Views.SortNewestFirst | appointments/views.py:40-42 | the result is ordered by date, then slot, descending, and is a permutation of the input |
| Views.SelectMine | appointments/views.py:39-46 | a row is selected iff it is the user's own (by doctor profile for a doctor, by patient otherwise) and it passes the status filter; no row is duplicated |
| Views.MyAppointments | appointments/views.py:37-52 | the list fails iff a doctor account has no profile; otherwise it holds exactly the user's own rows that pass the status filter (an empty filter keeps all), newest first, with no row added |
| Views.BookedRow | appointments/views.py:21-23 | the saved row has the new key, the requesting user as patient, and status pending |
| Views.BookDecision | appointments/views.py:12-25 | a doctor can never book; a booking succeeds iff the user is a patient, the form is valid and the key is new, and then the insert goes through |
| Views.BookingFormExcludesClash | appointments/forms.py:40-59 | a booking the form accepted never clashes under the table's slot-holding rule |
| Views.DetailDecision | appointments/views.py:55-70 | viewing succeeds iff the appointment exists and the user is its doctor's account or its patient; the only other outcomes are not-found and permission-denied |
| Views.EditedRow | appointments/views.py:86-89 | an edit replaces date, slot and reason and keeps every other field |
| Views.EditDecision | appointments/views.py:73-91 | an edit is not-found iff there is no such appointment; a doctor is never allowed; it succeeds iff the user is the booking patient, the appointment can be edited and the edit form is valid, and then the save goes through under the slot-holding rule |
| Views.EditSaveSucceeds | appointments/forms.py:86-101 | an edit the form accepted never clashes under the table's slot-holding rule |
| Views.CancelledRow | appointments/views.py:121 | cancelling sets the status to cancelled, which releases the slot, and changes nothing else |
| Views.CancelDecision | appointments/views.py:102-124 | a cancel is not-found iff there is no such appointment and permission-denied iff the user is neither its doctor's account nor its patient; it succeeds iff the user may act, the appointment can be cancelled and the request is a confirmation (a plain visit only asks) |
| Views.DoctorUpdateDecision | appointments/views.py:130-143 | a patient is always refused; the update succeeds iff the user is a doctor whose profile is the appointment's doctor, the submitted status is valid and the save passes the table's rules; another doctor's appointment is not found |
| Views.AppointmentTable.Book | appointments/views.py:18-25 | the outcome is the booking decision; on success the table gains exactly the booked row, otherwise it is unchanged; the table invariant is kept |
| Views.AppointmentTable.Edit | appointments/views.py:86-91 | the outcome is the edit decision; on success exactly the edited row is replaced, otherwise the table is unchanged; the table invariant is kept |
| Views.AppointmentTable.Cancel | appointments/views.py:116-124 | the outcome is the cancel decision; on success exactly that row becomes cancelled, otherwise the table is unchanged; the table invariant is kept |
| Views.AppointmentTable.DoctorUpdate | appointments/views.py:136-143 | the outcome is the update decision; on success exactly that row gets the new status and notes, otherwise the table is unchanged; the table invariant is kept |
| BookingProperties.IndexOfUnique | appointments/models.py:45 | with unique primary keys, the lookup by a row's id finds that very row |
| BookingProperties.BookingTakesOfferedSlot | appointments/views.py:12-25 | a successful booking takes a slot the free-slot query offered, and the query no longer offers it afterwards |
| BookingProperties.OfferedSlotIsBookable | appointments/views.py:154-186 | a patient's booking of an offered slot, for an available doctor, within the window, with a reason and a fresh key, always succeeds |
| BookingProperties.CancelFreesSlot | appointments/views.py:120-122 | a cancellation releases the slot: it is booked before, not booked after, and offered again by the free-slot query |
| BookingProperties.SecondCancelRefused | appointments/views.py:116-118 | after a cancellation the table still satisfies its invariant, and a second cancel by the same user, at any time, is refused as not cancellable |
| BookingProperties.CancelledRowBlocksRebookingAsWritten | appointments/models.py:64 | a table holding one cancelled 09:00 appointment: the query offers 09:00 and the booking form accepts it; the declared constraint refuses the insert, while the slot-holding rule admits it and the booking succeeds |
| BookingProperties.EditOntoCancelledSlotAsWritten | appointments/forms.py:62-101 | a patient moves a pending 09:30 appointment onto 09:00, held only by a cancelled row of the same doctor and day: the edit form accepts it and the handler saves; the declared constraint refuses that save, while the slot-holding rule admits it |
| BookingProperties.ReactivationOfRebookedSlotRejected | appointments/views.py:138-143 | under the slot-holding rule, a doctor who re-confirms a cancelled appointment whose slot has since been re-booked is refused by storage |
| SymptomChecker.MissingKnowledgeBase | symptom_checker/analyzer.py:18-19 | a missing knowledge-base document gives empty symptom, specialty and urgency tables |
| SymptomChecker.LowerChar | symptom_checker/analyzer.py:23 | a lower-cased character is never an ASCII capital; an ASCII capital becomes the small letter at the same position in the alphabet, and every other character is unchanged |
| SymptomChecker.Lower | symptom_checker/analyzer.py:23 | lower-casing keeps the length and lower-cases every character |
| SymptomChecker.FirstHit | symptom_checker/analyzer.py:31-40 | a keyword is found iff some keyword, lower-cased, occurs in the lower-cased input; the one found is the first such keyword in list order |
| SymptomChecker.MatchOf | symptom_checker/analyzer.py:31-39 | an entry is matched iff it has a hitting keyword; the match records the entry's id, that first keyword as written, and the entry's specialty, urgency and advice |
| SymptomChecker.CollectMatches | symptom_checker/analyzer.py:27-40 | there is at most one match per entry; a match is collected iff it is the match of some entry |
| SymptomChecker.CollectMatchesAppend | symptom_checker/analyzer.py:27 | the matches keep knowledge-base order: the matches of a concatenation are the concatenated matches |
| SymptomChecker.MatchesHaveDistinctIds | symptom_checker/analyzer.py:27-40 | no entry is reported twice: the matched symptom ids are distinct |
| SymptomChecker.UrgencyRank | symptom_checker/analyzer.py:54-55 | high ranks 3, medium 2 and low 1; any other urgency ranks 0 |
| SymptomChecker.OfRank | symptom_checker/analyzer.py:55 | the matches of one rank are exactly those of that rank in the list |
| SymptomChecker.InsertByUrgency | symptom_checker/analyzer.py:55 | insertion adds exactly the one match |
| SymptomChecker.InsertKeepsOrder | symptom_checker/analyzer.py:55 | inserting into a most-urgent-first list keeps it most urgent first |
| SymptomChecker.SortByUrgency | symptom_checker/analyzer.py:55 | the sorted matches are most urgent first and are a permutation of the matches |
| SymptomChecker.SortByUrgencyStable | symptom_checker/analyzer.py:55 | the sort is stable: the matches of each rank keep their knowledge-base order |
| SymptomChecker.StableSortIsUnique | symptom_checker/analyzer.py:55 | any most-urgent-first arrangement that keeps each rank's order is the one the sort gives, so every stable sort of the matches agrees |
| SymptomChecker.NoMatchAnalysis | symptom_checker/analyzer.py:42-51 | with no match the answer is no matches, general physician, low urgency and the fixed fallback advice |
| SymptomChecker.Analyze | symptom_checker/analyzer.py:21-69 | the matches are the collected matches, stably sorted by urgency; there are matches iff some entry matched; otherwise it is the fallback answer; with matches, specialty, urgency, advice and both info records are those of the first sorted match, and no match outranks it; an empty knowledge base always gives the fallback answer |
| SymptomChecker.MatchingIgnoresCase | symptom_checker/analyzer.py:23 | a description and its lower-cased form give the same matches |
| SymptomChecker.AllSpecialties | symptom_checker/analyzer.py:71-73 | the specialty table is empty for a missing knowledge base; each specialty listed maps to the record the analysis attaches for it, and an unlisted one gets the empty record |
| SymptomChecker.EntriesFor | symptom_checker/analyzer.py:78-79 | an entry is selected iff it is in the knowledge base with the given specialty |
| SymptomChecker.EntriesForAppend | symptom_checker/analyzer.py:78 | the selection keeps knowledge-base order |
| SymptomChecker.SpecialtySymptoms | symptom_checker/analyzer.py:75-85 | the result lists the id, keywords and advice of exactly the selected entries, in knowledge-base order |

## Left out

- HTTP handling is not modelled: redirects, flash messages, template rendering, URL routing and the GET branches that only render a form or a confirmation page. The handlers are modelled as typed outcomes.
- `doctor_list` (appointments/views.py:189-202) is not modelled. It is a filter whose only logic is the ORM query.
- The ORM is not modelled. Every query is a filter over the row sequence. Concurrent bookers and database transactions are not modelled.
- Clock reads are not modelled. So are the `%Y-%m-%d` date parsing and the naive versus aware datetimes. Today and now are inputs, and an unparsable date is the `Unparsable` case of the date parameter.
- Views.AvailableSlots: a malformed doctor id that makes the primary-key lookup raise an error other than "does not exist" is not modelled. The model treats every unknown id as invalid parameters.
- Forms.BookingErrors: the booking form's model-level uniqueness check is not among its errors. Django runs that check after `clean`, against a row of any status, and reports a refusal as a form error. Only `Appointments.InsertAsWritten` represents that rule. Under the slot-holding rule the form's clash check already excludes every insert storage would refuse, so `StorageRejected` on booking can arise only from a repeated key.
- Forms.DoctorErrors: an unparsable doctor id and a missing one both give `DoctorRequired`, where Django says "Select a valid choice" for the first. An unavailable or unknown doctor gives `DoctorNotSelectable`.
- Forms.DateErrors: an absent date and an unparsable one both give `DateRequired`, where Django says "Enter a valid date" for the second.
- Views.CancelledRow: the `created_at` and `updated_at` timestamps (appointments/models.py:59-60) are not modelled, so the `auto_now` bump of `updated_at` on every save is not captured. "Changes nothing else" is about the modelled fields.
- Forms.ReasonErrors: a reason is refused only when it is empty. The form's stripping of surrounding whitespace is not modelled; the reason is taken as already stripped.
- Forms.BookingErrors and Forms.EditErrors: each form error is one constructor. Django's error messages and its per-field error dictionary are not modelled.
- Views.SortNewestFirst: the order among rows that tie on both date and slot is not fixed, because the database leaves it unspecified. Its contract states only the order and the permutation.
- Loading the knowledge base is not modelled. The analyzer takes the parsed document as a value, and `MissingKnowledgeBase` is the fallback for a missing file. Other loading errors, such as malformed JSON, propagate in the source and are not modelled.
- SymptomChecker.Lower: only ASCII letters are lower-cased. Unicode case mapping is not modelled.
- SymptomChecker.Analyze: entries are taken with all fields present. A missing `specialty`, `urgency` or `advice` key, which the source reads as `None`, is not modelled.
- The symptom checker's own view, its audit record, account registration and login, profile editing and the admin configuration are not modelled. They only pass data to and from the modelled code.

## Findings

| source | as written | input that shows it | evidently intended | confidence | as-written member | corrected member |
|---|---|---|---|---|---|---|
| appointments/models.py:64 | `unique_together = ['doctor', 'date', 'time_slot']` makes the key unique over rows of every status | a table with one cancelled appointment of doctor 5 on day 100 at 09:00, and a patient booking the same slot: the free-slot query offers 09:00 and the form's own clash check passes, but the uniqueness rule refuses the new row. On the edit path, a patient moving a pending 09:30 appointment of the same doctor and day onto 09:00 passes the edit form, which has no doctor field and so skips the model-level uniqueness check; the save then violates the database constraint | only pending and confirmed appointments hold a slot, as the form's clash check and the free-slot query both assume, so a cancelled slot can be booked again | not executed | Appointments.InsertAsWritten, BookingProperties.CancelledRowBlocksRebookingAsWritten, Appointments.UpdateAsWritten, BookingProperties.EditOntoCancelledSlotAsWritten | Appointments.Insert, BookingProperties.OfferedSlotIsBookable, Appointments.Update, Views.EditDecision |
