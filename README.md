# Clinic WhatsApp booking core, modelled in Dafny

The clinic books orthopaedics (Ortho) and ENT appointments through a WhatsApp chat. The model covers the pieces that decide what happens to a message and to the booking tables:

- **Session store and reservation table** (`user_state.dfy`, module `UserState`). These are two in-process maps. One maps a user's phone to the user's booking session. The other maps a `date-department-slot` key to the user who holds that slot and the hold's timestamp. Their service is the class `UserState.Store`, which updates the two `map` fields in place. It includes the periodic sweep body as `Sweep(now)`. The clock is a parameter.
- **Date rules** (`validation.dfy`, `calendar.dfy`). These cover:
  - the strict `dd/mm/yyyy` reading with the calendar round-trip check;
  - the not-in-past, weekday-only and seven-weekday-horizon checks;
  - the horizon's day-walking loop, as a `method`;
  - conversion to `yyyy-mm-dd`;
  - phone-number normalisation.

  Dates are `CalDate(year, month0, day)` values in the proleptic Gregorian calendar. `DayNumber` gives each date a day count and `DayOfWeek` its JavaScript `getDay` value. `today` is a parameter.
- **Flexible time parser** (`time_parsing.dfy`). It models both published variants of `parseFlexibleTimeInput`: the clinic-hours one in `test-time-parsing.js` and the all-bare-hours-PM one in `test-final.js`. The model proves that each third branch is unreachable and that the two variants agree on every input. It also defines the parser that the expected outputs of `test-final.js` describe (`ParseTime`), as the corrected half of a finding. `ParseTime` does not match the expectations printed in test-time-parsing.js:101-105: those keep a bare "10:30" as "10:30" and reject a bare "3:30", and `ParseTime` gives "22:30" and "15:30". The booking flow's slot step uses `ParseTwoBranch`, the first two branches, which is what both variants compute.
- **Booking flow** (`booking_flow.dfy`). The step handlers are confirmation → department → date → slot → details → create. Each handler is a pure function on the two tables (`StoreState`) returning the new tables and the reply. Beside it is a `method` on `Store` that performs the same mutations, proved to reach exactly that state. The module also covers availability filtering against reservations, patient-details parsing and 12-hour display.
- **Message dispatcher** (`message_handler.dfy`). It covers:
  - keyword-priority routing and the cancel path;
  - the phone filter on the user's appointments;
  - the weekday loop of the weekly overview, as a `method` with its invariant;
  - the whole of `handleIncomingMessage`, as a method on `Store`.
- **Appointments HTTP function** (`appointments_api.dfy`). It covers:
  - `buildWhereClause`, and the PUT field builder, both written as `method`s pushing into sequences with a post-incremented parameter index;
  - the PUT status choice;
  - the POST required-field check.

The database, the WhatsApp transport and the slot catalogue are parameters:

- `db(date, department)` stands for `AppointmentService.getAvailableSlotsForDate`;
- `create(data)` stands for `AppointmentService.createAppointment`;
- `slots` stands for `AVAILABLE_TIME_SLOTS`;
- `appointments` stands for `AppointmentService.getAppointments`.

Replies are datatypes naming the message the code sends, not its text.

`wrappers.dfy` holds `Option`. `text.dfy` holds the string helpers the code uses through JavaScript built-ins:
- `trim`, `toLowerCase`, `includes`, `split`, `join`;
- `parseInt`, zero-padding, decimal printing.

## Model

| member | source | states |
|---|---|---|
| UserState.Store.constructor | src/services/userStateService.ts:18-23 | both tables start empty |
| UserState.Store.GetUserState | src/services/userStateService.ts:65-67 | stored session, or a fresh idle session when the user is unknown; reads without inserting |
| UserState.Lookup | src/services/userStateService.ts:65-67 | the pure reading of getUserState: stored session or idle |
| UserState.LookupUnknownIsIdle | src/services/userStateService.ts:65-97 | an unknown user reads as the fresh idle session; for every step, update and time, neither updateUserStep nor updateUserState changes anything for that user, who stays idle |
| UserState.Store.SetUserState | src/services/userStateService.ts:70-72 | the user's entry becomes the given session; every other entry and the reservation table are unchanged |
| UserState.WithSession | src/services/userStateService.ts:70-72 | key set grows by the user only, the user maps to the session, other users and reservations unchanged |
| UserState.Store.DeleteUserState | src/services/userStateService.ts:75-77 | the user's entry is removed and nothing else changes |
| UserState.WithoutSession | src/services/userStateService.ts:75-77 | key set loses exactly the user; remaining entries and reservations unchanged |
| UserState.Store.UpdateUserStep | src/services/userStateService.ts:80-87 | on a present user sets the step and refreshes lastActivityTime; a no-op on an absent user |
| UserState.WithStep | src/services/userStateService.ts:80-87 | same key set; only the user's step and activity time change; other users and reservations unchanged |
| UserState.Store.UpdateUserState | src/services/userStateService.ts:90-97 | on a present user merges the given fields (Object.assign) and refreshes lastActivityTime; a no-op on an absent user |
| UserState.Applied | src/services/userStateService.ts:93 | each field is the update's value when given and the old value otherwise |
| UserState.WithUpdates | src/services/userStateService.ts:90-97 | same key set; only the user's entry changes, to the merged session with the new activity time |
| UserState.Store.AddTemporaryReservation | src/services/userStateService.ts:100-102 | the key maps to (user, now), overwriting any holder; sessions and other keys unchanged |
| UserState.WithReservation | src/services/userStateService.ts:100-102 | reservation key set grows by the key only and the key maps to (user, now) |
| UserState.Store.GetTemporaryReservation | src/services/userStateService.ts:105-107 | the stored reservation if the key is present, none otherwise |
| UserState.FindReservation | src/services/userStateService.ts:105-107 | present iff the key is in the table, with the stored value |
| UserState.Store.DeleteTemporaryReservation | src/services/userStateService.ts:110-112 | the key is removed and nothing else changes |
| UserState.WithoutReservation | src/services/userStateService.ts:110-112 | reservation key set loses exactly the key; sessions unchanged |
| UserState.Store.IsSlotReservedByOther | src/services/userStateService.ts:115-118 | true iff the key is held and its holder is not the asking user |
| UserState.ReservationAfterAdd | src/services/userStateService.ts:100-118 | after adding, the slot is not reserved by another for the same user, but it is for any other user, and reading it back gives (user, now) |
| UserState.ReservationAfterDelete | src/services/userStateService.ts:105-118 | after deleting, reading the key gives none and no user sees it reserved by another |
| UserState.HeldKey | src/services/userStateService.ts:123-125 | a session holds a key iff its date and slot are both set, and the key is date-department-slot |
| UserState.Store.ClearExpiredReservation | src/services/userStateService.ts:121-127 | removes the held key of the user's session, if any; sessions unchanged |
| UserState.ExpiredReservationCleared | src/services/userStateService.ts:121-127 | sessions unchanged; removes exactly the held key when the user has one, otherwise no change |
| UserState.ClearKeepsSessions | src/services/userStateService.ts:121-127 | clearing keeps every session and every reservation key other than the user's held one |
| UserState.Store.Sweep | src/services/userStateService.ts:29-61 | the new tables are the sweep function of the old ones and now |
| UserState.Store.SweepReservations | src/services/userStateService.ts:33-37 | the loop removes exactly the reservations older than the timeout; sessions unchanged |
| UserState.Store.SweepSessions | src/services/userStateService.ts:40-60 | the loop removes exactly the evicted users and exactly the keys their expired reservations held |
| UserState.Store.SweepSession | src/services/userStateService.ts:41-59 | one iteration: removes the session iff it is evicted, and its held key iff its reservation expired |
| UserState.StaleSweepExact | src/services/userStateService.ts:26-37 | a reservation survives iff it is at most five minutes old, and a survivor keeps its value |
| UserState.FiveMinuteReservationSurvives | src/services/userStateService.ts:26-34 | an entry aged exactly five minutes is kept |
| UserState.SessionSweepExact | src/services/userStateService.ts:40-60 | a session survives the sweep iff it is not evicted, and survivors are unchanged |
| UserState.ReservationSweepExact | src/services/userStateService.ts:33-50 | a key survives iff it is at most five minutes old and no session whose reservation expired holds it |
| UserState.ExpiredSessionReleasesKey | src/services/userStateService.ts:43-50 | a session whose reservationTime is over 30 minutes old is removed, and so is the key it holds |
| UserState.UnreservedSessionSweep | src/services/userStateService.ts:51-58 | without reservationTime: idle sessions and sessions without activity time survive; others go iff inactive for over 10 minutes |
| Validation.NormalizePhoneNumber | src/services/validationService.ts:6-17 | digits only, length min(digit count, 10), and the last digits of the input's digits |
| Validation.DigitsOnly | src/services/validationService.ts:8 | only digits, never longer than the input, and an all-digit input is returned unchanged |
| Validation.DigitsOnlyChar | src/services/validationService.ts:8 | a single character is kept iff it is a digit |
| Validation.DigitsOnlyAppend | src/services/validationService.ts:8 | the digits of a concatenation are the digits of the first part followed by those of the second |
| Validation.DigitsOnlyMembers | src/services/validationService.ts:8 | a character occurs in the result iff it is a digit occurring in the input |
| Validation.NormalizeIdempotent | src/services/validationService.ts:6-17 | normalising twice equals normalising once |
| Validation.CalculateMaxAdvanceDate | src/services/validationService.ts:20-45 | the day-walking loop returns MaxAdvanceDate(today, n) |
| Validation.MaxAdvanceDate | src/services/validationService.ts:20-45 | a valid date whose day number is the horizon of today and n |
| Validation.MaxAdvanceDateCounts | src/services/validationService.ts:20-45 | for n ≥ 1 the result is a weekday after today, and exactly n weekdays lie in (today, result] |
| Validation.HorizonMeaning | src/services/validationService.ts:85-88 | a weekday is on or before the horizon iff at most n weekdays lie in (today, date] |
| Validation.HorizonOrder | src/services/validationService.ts:28-36 | on day numbers: a weekday is at most the horizon iff the weekday count up to it is at most n |
| Validation.HorizonCounts | src/services/validationService.ts:28-36 | the horizon lies exactly n weekdays past today |
| Validation.NextWeekdayDate | src/services/validationService.ts:28-35 | a valid date on the first weekday strictly after the given one |
| Validation.MatchDayMonthYear | src/services/validationService.ts:49-50 | a match has 1-2, 1-2 and 4 digit groups |
| Validation.MatchDayMonthYearExact | src/services/validationService.ts:49-50 | a match splits the input exactly into day/month/year |
| Validation.MatchDayMonthYearComplete | src/services/validationService.ts:49-50 | every string of that shape matches, with those groups |
| Validation.ValidateDateFormat | src/services/validationService.ts:48-69 | accepts iff the regex matches and the date round-trips; an accepted date is valid with a 0-indexed month and a year in 100..9999 |
| Validation.ValidateDateFormatGroups | src/services/validationService.ts:56-68 | on matched groups, accepts exactly the round-tripping dates |
| Validation.ValidateDateFormatAccepts | src/services/validationService.ts:48-69 | every real date from year 100 to 9999, written dd/mm/yyyy, is accepted as itself |
| Validation.NoThirtyFirstOfFebruary | src/services/validationService.ts:61-66 | 31/02/2024 is rejected |
| Validation.NoTwoDigitYear | src/services/validationService.ts:61-66 | 01/01/0024 is rejected, because the JavaScript Date maps years below 100 to 1900 onwards |
| Validation.SingleDigitFields | src/services/validationService.ts:49-68 | 1/1/2024 is accepted, as 1 January 2024 with month index 0 |
| Validation.ValidateDateNotInPast | src/services/validationService.ts:72-76 | true iff the date is on or after today; today itself passes |
| Validation.ValidateWeekday | src/services/validationService.ts:79-82 | false exactly for Sunday (0) and Saturday (6) |
| Validation.ValidateAdvanceBookingLimit | src/services/validationService.ts:85-88 | on a weekday: true iff at most maxWeekdays weekdays lie between today and the date |
| Validation.CheckAppointmentDate | src/services/validationService.ts:110-147 | never a format error; an accepted date is the input date, and its yyyy-mm-dd text reads back to it (the horizon is a parameter; the entry point applies 7) |
| Validation.CheckAppointmentDateRules | src/services/validationService.ts:110-136 | checks past, then weekday, then horizon: each error holds iff the earlier checks passed and this one fails, and the horizon error names the latest bookable day |
| Validation.ValidateAppointmentDate | src/services/validationService.ts:91-148 | a format error iff the format check fails; otherwise the result is the past/weekday/horizon check |
| Validation.AcceptedDateMeaning | src/services/validationService.ts:97-147 | an accepted date is the parsed date, today or later, a weekday, within 7 weekdays, and its yyyy-mm-dd text reads back to it |
| Validation.TodayIsBookable | src/services/validationService.ts:91-148 | today, when a weekday, is accepted as itself |
| Validation.FormatIsoDate | src/services/validationService.ts:141 | ten characters with dashes at positions 4 and 7, which read back as yyyy-mm-dd to the same date |
| Validation.IsoDateRoundTrip | src/services/validationService.ts:141 | the zero-padded yyyy-mm-dd text re-reads to the same year, month and day |
| Calendar.NextDateStep | src/services/validationService.ts:35 | setDate(+1) gives a valid date one day later |
| Calendar.StepForward | src/services/validationService.ts:35 | the in-place setDate(+1) yields a valid date exactly one day number later |
| Calendar.StepBack | src/services/validationService.ts:39 | the in-place setDate(-1) yields a valid date exactly one day number earlier |
| Calendar.NextWeekday | src/services/validationService.ts:29-35 | the next day's getDay is one more modulo 7 |
| Calendar.PrevDateStep | src/services/validationService.ts:39 | setDate(-1) gives a valid date one day earlier, whose next day is the start |
| Calendar.DayNumberInjective | src/services/validationService.ts:75-87 | distinct valid dates have distinct day numbers, so Date comparison is day-number comparison |
| TimeParsing.ParseClinic | test-time-parsing.js:4-72 | the clinic-hours parser as written; every result is HH:MM with HH ≤ 23 and MM ≤ 59 |
| TimeParsing.ParseFinal | test-final.js:5-65 | the all-bare-hours-PM parser as written; every result is a valid HH:MM |
| TimeParsing.ParseTwoBranch | test-time-parsing.js:9-35 | the 24-hour and am/pm branches alone; every result is an HH:MM clock text of a valid time |
| TimeParsing.ClinicBranchUnreachable | test-time-parsing.js:9-65 | the clinic-hours parser equals the two-branch parser on every input |
| TimeParsing.FinalBranchUnreachable | test-final.js:10-58 | the test-final parser equals the two-branch parser on every input |
| TimeParsing.VersionsAgree | test-final.js:5-65 | both published variants return the same result for every input |
| TimeParsing.ParseSeesCleanText | test-time-parsing.js:6 | input is trimmed and lowercased before matching |
| TimeParsing.BareTimeIs24Hour | test-time-parsing.js:9-15 | bare H:MM / HH:MM gives the zero-padded HH:MM when hour ≤ 23 and minutes ≤ 59, null otherwise |
| TimeParsing.To24Hour | test-time-parsing.js:26-30 | pm adds 12 except to 12; am maps 12 to 0 |
| TimeParsing.PeriodTimeIsConverted | test-time-parsing.js:18-35 | an am/pm time gives the converted hour, or null when the converted hour exceeds 23 |
| TimeParsing.UnmatchedIsNull | test-time-parsing.js:67 | input matching neither pattern gives null |
| TimeParsing.ResultRereads | test-time-parsing.js:12-33 | re-parsing a result returns it unchanged |
| TimeParsing.ClockTextRereads | test-time-parsing.js:9-15 | every HH:MM text parses to itself |
| TimeParsing.ClockText | test-time-parsing.js:12-33 | a 5-character HH:MM whose fields read back to the hour and minute |
| TimeParsing.BareOneThirtyIsMorning | test-time-parsing.js:9-15 | both variants return 01:30 on 1:30, unlike the printed expectation |
| TimeParsing.TwelveAmIsMidnight | test-final.js:29-30 | 12:00 am gives 00:00 |
| TimeParsing.OneThirtyAmIsMorning | test-final.js:26-31 | 1:30 am gives 01:30 |
| TimeParsing.LatePmIsNull | test-time-parsing.js:26-35 | 13:30 pm gives null |
| TimeParsing.ParseTime | test-final.js:40-58 | the intended parser: every result is a valid HH:MM |
| TimeParsing.BareHourIsAfternoon | test-final.js:40-58 | in the intended parser a bare hour 1-12 is read as afternoon (12 stays 12) |
| TimeParsing.ParseTimeElsewhereAsWritten | test-final.js:5-65 | outside bare hours 1-12 the intended parser returns what the written one does |
| TimeParsing.IntendedOneThirty | test-final.js:69 | the intended parser reads 1:30 as 13:30 |
| TimeParsing.IntendedTenThirty | test-final.js:72 | the intended parser reads 10:30 as 22:30 |
| TimeParsing.IntendedThirteenThirty | test-final.js:76 | the intended parser keeps 13:30 |
| TimeParsing.IntendedMidnight | test-final.js:75 | the intended parser reads 12:00 AM as 00:00 |
| BookingFlow.AfterBookingConfirmation | src/services/bookingFlowService.ts:14-35 | a yes-word moves to waiting_for_department, a no-word deletes the session, anything else changes nothing |
| BookingFlow.HandleBookingConfirmation | src/services/bookingFlowService.ts:14-35 | the store ends in the state AfterBookingConfirmation gives, with its reply |
| BookingFlow.DepartmentChoice | src/services/bookingFlowService.ts:41-47 | Ortho iff "1" or "ortho"; ENT iff "2" or "ent" |
| BookingFlow.AfterDepartmentSelection | src/services/bookingFlowService.ts:38-75 | a recognised department is stored and the step becomes waiting_for_date; otherwise step and department stay |
| BookingFlow.HandleDepartmentSelection | src/services/bookingFlowService.ts:38-75 | the store ends in the state AfterDepartmentSelection gives, with its reply |
| BookingFlow.AfterDateSelection | src/services/bookingFlowService.ts:78-161 | slots are shown and the step advanced with selectedDate = formattedDate iff the date validates, the lookup has no error and some slot is free; otherwise nothing changes |
| BookingFlow.HandleDateSelection | src/services/bookingFlowService.ts:78-161 | the store ends in the state AfterDateSelection gives, with its reply |
| BookingFlow.ViewOf | src/services/bookingFlowService.ts:385-426 | an error yields empty lists with that error; otherwise booked is passed through |
| BookingFlow.SlotsWithReservations | src/services/bookingFlowService.ts:394-415 | the filter loop with its push returns ViewOf of the reservation table |
| BookingFlow.UnreservedInOrder | src/services/bookingFlowService.ts:400-409 | the available list keeps the catalogue's order |
| BookingFlow.ReservedInOrder | src/services/bookingFlowService.ts:400-409 | the reserved list keeps the catalogue's order |
| BookingFlow.SlotsCounted | src/services/bookingFlowService.ts:400-409 | available and reserved partition the list as multisets |
| BookingFlow.SlotsSplitByKey | src/services/bookingFlowService.ts:400-409 | a slot is reserved iff any reservation for its key exists, whoever holds it |
| BookingFlow.SlotReservableMeaning | src/services/bookingFlowService.ts:164-215 | a reservable reply parses, by the two branches both parser variants compute, to a clock text that reads back as itself, is in the catalogue, is free in the database and is held by no other user |
| BookingFlow.AfterSlotSelection | src/services/bookingFlowService.ts:164-251 | reserve and move to waiting_for_details iff the text, read by the two parser branches both variants compute (a bare time as 24-hour, so 10:30 is morning), gives a slot in the catalogue, currently available and not held by another user; otherwise nothing changes |
| BookingFlow.HandleSlotSelection | src/services/bookingFlowService.ts:164-251 | the store ends in the state AfterSlotSelection gives, with its reply |
| BookingFlow.FindLine | src/services/bookingFlowService.ts:269-270 | the first line whose lowercased text contains the label, as `find` returns it, or none when no line does |
| BookingFlow.FieldValueAfterLabel | src/services/bookingFlowService.ts:273-274 | the value is the trimmed text between the first and second colon |
| BookingFlow.ParseDetails | src/services/bookingFlowService.ts:266-289 | text with neither newline nor comma gives no details |
| BookingFlow.CommaDetails | src/services/bookingFlowService.ts:278-283 | the comma form takes the first two trimmed parts |
| BookingFlow.LineDetails | src/services/bookingFlowService.ts:266-274 | the newline form takes the name: and phone: lines' values |
| BookingFlow.AfterPatientDetails | src/services/bookingFlowService.ts:258-327 | bad format, a name under 2 or a phone under 10 UTF-16 code units (JavaScript `.length`) leave the state and reply with the error; accepted details are stored and then the appointment is created |
| BookingFlow.HandlePatientDetails | src/services/bookingFlowService.ts:258-327 | the store ends in the state AfterPatientDetails gives, with its reply |
| BookingFlow.AstralNamePasses | src/services/bookingFlowService.ts:291 | a one-character name beyond U+FFFF has JavaScript length 2, so it passes the name check |
| BookingFlow.AfterCreateAppointment | src/services/bookingFlowService.ts:330-382 | confirmed iff the session is complete and the insert succeeds, which deletes the reservation and the session; a failure deletes only the reservation |
| BookingFlow.CreateAppointment | src/services/bookingFlowService.ts:330-382 | the store ends in the state AfterCreateAppointment gives, with its reply |
| BookingFlow.FormatTimeTo12Hour | src/services/bookingFlowService.ts:434-445 | text without a colon is returned unchanged |
| BookingFlow.TwelveHourClock | src/services/bookingFlowService.ts:434-445 | 0 → 12:mm AM, 1-11 → h:mm AM, 12 → 12:mm PM, 13-23 → (h-12):mm PM |
| BookingFlow.FormatFromParts | src/services/bookingFlowService.ts:434-445 | a time that splits at its colon into two parts, the first reading as hour h, shows 12 AM for 0, h AM below 12, 12 PM for 12 and h-12 PM above, followed by the second part |
| BookingFlow.ClockTextParts | src/services/bookingFlowService.ts:434-436 | an HH:MM clock text splits into its two padded fields, and the first reads back as the hour |
| BookingFlow.FormatTimeSlotsTo12Hour | src/services/bookingFlowService.ts:429-431 | each slot is formatted in place, same length |
| BookingFlow.DisplayDepartmentName | src/services/bookingFlowService.ts:448-450 | Ortho is shown as Orthopedics, ENT as itself |
| MessageHandler.RouteOf | src/services/messageHandlerService.ts:36-90 | book iff "book" occurs; each later command (my appointments or check, help, weekly or week, cancel or stop) iff its words occur and no earlier group's do; a command is found iff the route is not a step handler or the welcome; no command gives the step's handler, or the welcome when idle |
| MessageHandler.Touched | src/services/messageHandlerService.ts:24-30 | the sender has a session (idle when unseen) with lastActivityTime = now; everything else unchanged |
| MessageHandler.Cancelled | src/services/messageHandlerService.ts:48-58 | the session is deleted, and the reservation key only when date and slot are both set |
| MessageHandler.CancelUserBooking | src/services/messageHandlerService.ts:48-58 | the store ends in the Cancelled state |
| MessageHandler.StepOutcome | src/services/messageHandlerService.ts:59-78 | for each non-idle step, its handler: an error notice other than a failed insert changes nothing; the sender's session ends iff the reply is a cancellation or a confirmation; no other user's session changes |
| MessageHandler.HandleStep | src/services/messageHandlerService.ts:59-78 | the store ends in the state of the handler of the session's step |
| MessageHandler.AfterMessage | src/services/messageHandlerService.ts:11-91 | a flow reply iff the message cancels or falls to a step handler; every other route keeps the reservations and leaves the sender with a session active at now; book answers with the booking info and the confirmation step; no other user's session changes |
| MessageHandler.HandleIncomingMessage | src/services/messageHandlerService.ts:11-91 | the store and the response are those of the dispatcher function on the old store |
| MessageHandler.IdleGetsWelcome | src/services/messageHandlerService.ts:24-90 | without a command an idle or unseen user is stored idle and gets the welcome |
| MessageHandler.CancelCommand | src/services/messageHandlerService.ts:48-58 | cancel removes the session and exactly its held key, at any step |
| MessageHandler.MessageKeepsSession | src/services/messageHandlerService.ts:24-47 | a message that starts a booking or has no command keeps the sender's session, with activity time now, outside the confirmation and details steps |
| MessageHandler.AppointmentsOfMembers | src/services/messageHandlerService.ts:97-106 | the filter keeps exactly the appointments whose normalised phone equals the sender's normalised phone |
| MessageHandler.AppointmentsOfCounted | src/services/messageHandlerService.ts:103-106 | an appointment with the sender's phone keeps its full count, duplicates included; any other drops out |
| MessageHandler.AppointmentsOfInOrder | src/services/messageHandlerService.ts:103-106 | the filtered list keeps the original order |
| MessageHandler.AppointmentsResponse | src/services/messageHandlerService.ts:94-142 | an unavailable list, no matching appointments, or the non-empty filtered list |
| MessageHandler.WeekdaysFrom | src/services/messageHandlerService.ts:151-161 | the loop collects CollectWeekdays(today, 5) |
| MessageHandler.CollectedWeekdays | src/services/messageHandlerService.ts:151-161 | exactly the count many valid weekdays from today on, strictly increasing, none skipped before the first or between two |
| MessageHandler.RunWeekdays | src/services/messageHandlerService.ts:155-160 | on day numbers: count many weekdays, none before the start |
| MessageHandler.RunIncreasing | src/services/messageHandlerService.ts:155-160 | on day numbers: strictly increasing |
| MessageHandler.RunNoGaps | src/services/messageHandlerService.ts:155-160 | on day numbers: no weekday between two consecutive collected days |
| MessageHandler.RunFromFirst | src/services/messageHandlerService.ts:155-160 | on day numbers: no weekday between the start and the first collected day |
| MessageHandler.CollectedRun | src/services/messageHandlerService.ts:155-160 | the collected dates have the day numbers of the integer run |
| MessageHandler.IsoDateText | src/services/messageHandlerService.ts:172 | for years 0-9999 the same text as `Validation.FormatIsoDate`, so it reads back to the date; other years take the signed six-digit form |
| MessageHandler.WeeklyAvailability | src/services/messageHandlerService.ts:145-222 | the overview of the five collected weekdays, one report per day |
| MessageHandler.WeeklyOverviewOf | src/services/messageHandlerService.ts:145-222 | exactly five day reports |
| MessageHandler.WeeklyReportAt | src/services/messageHandlerService.ts:165-176 | the i-th report is the availability of the i-th collected day |
| MessageHandler.ReportDays | src/services/messageHandlerService.ts:165-176 | the loop over the collected days returns the overview of those days, so report i is the report of day i, for every day, in order |
| AppointmentsApi.PlaceholderNumber | netlify/functions/appointments.ts:48 | `$` followed by the decimal digits that read back to the index |
| AppointmentsApi.PlaceholdersDistinct | netlify/functions/appointments.ts:48-58 | two placeholders are equal iff their indices are |
| AppointmentsApi.BuildWhereClause | netlify/functions/appointments.ts:42-68 | the pushing method returns WhereClause and WhereParams of the query |
| AppointmentsApi.FilterChosen | netlify/functions/appointments.ts:47-60 | a filter is present iff its query value is truthy, with that value |
| AppointmentsApi.FiltersInOrder | netlify/functions/appointments.ts:47-64 | conditions come in the order department, date, phone |
| AppointmentsApi.WherePlaceholders | netlify/functions/appointments.ts:45-64 | placeholders are $1..$k in order, params has length k, and upcoming adds a condition without a parameter |
| AppointmentsApi.UpcomingTakesNoParameter | netlify/functions/appointments.ts:62-64 | changing upcoming never changes the parameters |
| AppointmentsApi.WhereClauseShape | netlify/functions/appointments.ts:66 | empty iff no condition holds, and otherwise begins with WHERE |
| AppointmentsApi.DateOnlyListing | netlify/functions/appointments.ts:52-66 | a date-only query gives WHERE date = $1 with the date as its one parameter |
| AppointmentsApi.PushIfDefined | netlify/functions/appointments.ts:184-203 | one guarded push keeps fragments, params and the index in step with the fields defined so far |
| AppointmentsApi.BuildUpdate | netlify/functions/appointments.ts:180-214 | the pushing method returns UpdatePlanOf of the request and id |
| AppointmentsApi.NothingToUpdate | netlify/functions/appointments.ts:205-211 | no update runs iff every field is undefined |
| AppointmentsApi.UpdateIdLast | netlify/functions/appointments.ts:213-214 | the id is the last parameter, after the field values, and the SQL joins the assignments with a comma |
| AppointmentsApi.UpdateAssignments | netlify/functions/appointments.ts:184-203 | the k-th assignment is the k-th defined field's column = $k+1 |
| AppointmentsApi.UpdateFieldsInOrder | netlify/functions/appointments.ts:184-203 | fields come in the order date, time slot, patient name, department, patient phone |
| AppointmentsApi.UpdateStatus | netlify/functions/appointments.ts:205-236 | 400 with no fields; otherwise 404 iff no row changed, else 200 |
| AppointmentsApi.InsertPlanOf | netlify/functions/appointments.ts:141-160 | missing fields iff some field is absent or empty; otherwise the five non-empty values in column order |
| AppointmentsApi.CreateStatus | netlify/functions/appointments.ts:145-166 | 400 iff a field is missing, 201 iff the insert runs |
| Text.NatToString | netlify/functions/appointments.ts:48 | non-empty decimal digits that read back to the number |
| Text.SplitAt | src/services/bookingFlowService.ts:268-280 | splitting at the first separator gives the part before it, then the split of the rest |
| Text.JoinSplit | src/services/bookingFlowService.ts:268-280 | joining a split with its separator gives back the input |
| Text.ParseInt | src/services/validationService.ts:56-58 | NaN iff no digit follows the leading white space and optional sign; otherwise the value of the leading digits, negated exactly when the trimmed text starts with a minus |
| Text.ParseIntDigits | src/services/validationService.ts:56-58 | parseInt of a digit string is its decimal value |
| Text.CleanIdempotent | test-time-parsing.js:6 | trimming and lowercasing twice equals doing it once |
| Text.Utf16Length | src/services/bookingFlowService.ts:291-300 | JavaScript's `.length`: at least the character count and at most twice it |
| Text.Utf16LengthAppend | src/services/bookingFlowService.ts:291-300 | the length of a concatenation is the sum of the lengths |
| Text.Utf16LengthBmp | src/services/bookingFlowService.ts:291-300 | on characters up to U+FFFF the length is the character count |
| Text.Utf16LengthAstral | src/services/bookingFlowService.ts:291-300 | a single character beyond U+FFFF has length 2 |

## Left out

- The WhatsApp transport, message texts, console logging and `async` scheduling are left out. Replies are named by datatype constructors.
- The `setInterval` timer is left out. `Sweep(now)` is its body, run atomically with `now` as a parameter.
- `Date.now()` and `new Date()` are left out. `now` (milliseconds) and `today` (a calendar date) are parameters, and all dates are local midnights.
- `toISOString` in the weekly overview (messageHandlerService.ts:172) converts to UTC, which can shift the day. The model formats the local date.
- `toLocaleDateString` in the horizon error message (validationService.ts:129-133) is left out, because the reply carries no text.
- The payment branches at messageHandlerService.ts:79-86 are left out. They call handlers that the booking flow does not define, and they test steps that the session type at userStateService.ts:5 does not have.
- The private `normalizePhoneNumber` in messageHandlerService.ts:269-280 is not modelled separately. It has the same body as validationService.ts:6-17, and the model uses `Validation.NormalizePhoneNumber` for both.
- The duplicate `getAvailableSlotsWithReservations` in messageHandlerService.ts:225-266 is not modelled separately. It has the same body as the booking flow's, and the model uses `BookingFlow.ViewOf` for both.
- The `try`/`catch` paths of the oracles are left out. A failing availability lookup is the `error` field of the query result, a failing insert is `create` returning false, and a failing appointments fetch is `None`.
- Strings are sequences of Unicode scalar values, so `|s|` counts characters where JavaScript counts UTF-16 code units. The name and phone length checks measure `Text.Utf16Length`, JavaScript's `.length`. The other string operations work per character, and their separators and keywords are ASCII, so they agree with JavaScript on every string without lone surrogates; a Dafny string cannot hold one.
- `Text.ToLower`: maps only ASCII A-Z and the Kelvin sign; every other character is kept. JavaScript's `toLowerCase` also lowers other non-ASCII capitals, which changes only the stored text, and lowers U+0130 (İ) to two characters, `i` and U+0307, one UTF-16 unit more. The dispatcher lowercases the message before the details step measures it, so a name or phone containing U+0130 is one unit shorter in the model than in the source: `BookingFlow.AfterPatientDetails` replies NameTooShort to `İ, 1234567890`, which the source accepts. No keyword, yes/no word, department or time pattern matches differently, because each `i` they contain would be followed by U+0307.
- `BookingFlow.AfterPatientDetails`: a name or phone containing U+0130 is measured one UTF-16 unit shorter than in the source, for the reason in the `Text.ToLower` line.
- `parseInt` is modelled on the inputs the code gives it: the regex guarantees digits only. Other edge cases, such as a `0x` prefix, are not modelled.
- In PUT and POST bodies, JSON `null` and non-string values are not modelled. A field is a present string or absent (`Option<string>`). An empty string counts as defined for PUT and as missing for POST.
- SQL execution, the GET-by-id and DELETE branches, CORS headers and OPTIONS handling in appointments.ts are not part of this model. `rowCount` is a parameter of `UpdateStatus`.
- The PUT id is taken as a string. `split('/').pop()` on a path is never undefined.
- `UserState.Store.UpdateUserState`: `Partial` updates that pass `undefined` for a field are read as "field not given". `Object.assign` would store the `undefined`. The booking flow never passes one.
- `BookingFlow.FormatTimeTo12Hour`: the contract covers only text without a colon. Text with two parts and a readable hour is covered by `FormatFromParts`, and well-formed `HH:MM` slots by `TwelveHourClock`. The `NaN` output of a malformed hour is computed but no property is stated for it.
- `BookingFlow.ParseDetails`: the contract states only the rejection of text with neither form. The two accepted forms are covered by `CommaDetails` and `LineDetails`.
- `MessageHandler.WeeklyOverviewOf`: the contract states only the report count. The per-day content is in `WeeklyReportAt`, and the days are described by `CollectedWeekdays`.
- `createAppointment` and the cancel path delete the reservation key whoever holds it. The source does the same, and the model does not add a holder check.
- `parseFlexibleTimeInput` as the booking flow imports it (bookingFlowService.ts:9) is not part of this model: `src/utils/timeUtils.ts` exports only the 12-hour formatting helpers. The slot step uses `TimeParsing.ParseTwoBranch`, which both published variants equal on every input (`ClinicBranchUnreachable`, `FinalBranchUnreachable`). It reads a bare `10:30` as morning, as the slot prompt at bookingFlowService.ts:179 says. The variants are modelled as written.
- The model follows the code as written in these places:
  - the dispatcher lowercases the message but does not trim it;
  - the slot step checks `isSlotReservedByOther` and then adds the reservation unconditionally;
  - a session without reservationTime is swept after 10 minutes of inactivity, and only when it is not idle;
  - a failed insert keeps the session;
  - the past check comes before the weekday check.

## Findings

| source | as written | input that shows it | evidently intended | confidence | as-written member | corrected member |
|---|---|---|---|---|---|---|
| test-final.js:40-58 | the bare-hour "1-12 → PM" branch repeats the 24-hour regex checked at line 10, so it never runs and bare hours stay morning | "1:30" gives "01:30" (test-final.js:69 expects "13:30"); "10:30" gives "10:30" (line 72 expects "22:30") | a bare hour 1-11 is read as afternoon and 12 stays 12 | not executed | TimeParsing.BareOneThirtyIsMorning | TimeParsing.IntendedOneThirty |
