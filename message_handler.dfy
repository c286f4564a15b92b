/**
 * The entry point of the chat: every incoming message first refreshes the sender's
 * session, then a keyword anywhere in the lower-cased text picks a command (book, my
 * appointments or check, help, weekly or week, cancel or stop, in that priority), and
 * otherwise the session's step picks the booking handler.
 *
 * `AfterMessage` is the transition on the store's tables with the response sent, and
 * `HandleIncomingMessage` performs it through a `Store`. The appointment list of the
 * database is the value `appointments` (`None` when reading it fails).
 */
module MessageHandler {
  import opened Wrappers
  import opened Text
  import opened Calendar
  import Validation
  import opened UserState
  import opened BookingFlow

  /** An appointment as the database lists it. */
  datatype Appointment = Appointment(date: string, timeSlot: string, patientName: string, department: Department, patientPhone: string)

  /** The availability of both departments on one day of the weekly overview. */
  datatype DayAvailability = DayAvailability(date: CalDate, ortho: SlotsView, ent: SlotsView)

  datatype Response =
    | BookingInfo
    | AppointmentList(appointments: seq<Appointment>)
    | NoAppointments
    | AppointmentsUnavailable
    | HelpMessage
    | WeeklyOverview(days: seq<DayAvailability>)
    | Flow(reply: Reply)
    | Welcome

  /** Where the dispatcher sends a message. */
  datatype Route =
    | StartBooking
    | ListAppointments
    | ShowHelp
    | ShowWeek
    | CancelBooking
    | StepHandler(step: Step)
    | SendWelcome

  datatype Result = Result(state: StoreState, response: Response)

  /** The keyword groups of the dispatcher, in their order of priority. */
  predicate SaysBook(text: string) { Contains(text, "book") }

  predicate SaysList(text: string) { Contains(text, "my appointments") || Contains(text, "check") }

  predicate SaysHelp(text: string) { Contains(text, "help") }

  predicate SaysWeek(text: string) { Contains(text, "weekly") || Contains(text, "week") }

  predicate SaysCancel(text: string) { Contains(text, "cancel") || Contains(text, "stop") }

  /** A command word occurs somewhere in the text. */
  predicate HasCommand(text: string)
  {
    SaysBook(text) || SaysList(text) || SaysHelp(text) || SaysWeek(text) || SaysCancel(text)
  }

  /**
   * The dispatch of `handleIncomingMessage`: the first keyword group, in the order book,
   * my appointments or check, help, weekly or week, cancel or stop, that occurs in the text
   * picks the command, whatever the step; without a command the step picks its handler,
   * an idle session getting the welcome.
   */
  function RouteOf(text: string, step: Step): (r: Route)
    ensures r == StartBooking <==> SaysBook(text)
    ensures r == ListAppointments <==> !SaysBook(text) && SaysList(text)
    ensures r == ShowHelp <==> !SaysBook(text) && !SaysList(text) && SaysHelp(text)
    ensures r == ShowWeek <==> !SaysBook(text) && !SaysList(text) && !SaysHelp(text) && SaysWeek(text)
    ensures r == CancelBooking <==>
      !SaysBook(text) && !SaysList(text) && !SaysHelp(text) && !SaysWeek(text) && SaysCancel(text)
    ensures HasCommand(text) <==> !r.StepHandler? && r != SendWelcome
    ensures !HasCommand(text) ==> r == (if step == Idle then SendWelcome else StepHandler(step))
  {
    if Contains(text, "book") then StartBooking
    else if Contains(text, "my appointments") || Contains(text, "check") then ListAppointments
    else if Contains(text, "help") then ShowHelp
    else if Contains(text, "weekly") || Contains(text, "week") then ShowWeek
    else if Contains(text, "cancel") || Contains(text, "stop") then CancelBooking
    else if step == Idle then SendWelcome
    else StepHandler(step)
  }

  // ---------------------------------------------------------------- my appointments

  predicate SamePhone(a: Appointment, phone: string)
  {
    Validation.NormalizePhoneNumber(a.patientPhone) == Validation.NormalizePhoneNumber(phone)
  }

  /** The filter of `sendUserAppointments`: the appointments booked under the sender's phone. */
  function AppointmentsOf(all: seq<Appointment>, phone: string): seq<Appointment>
  {
    if all == [] then []
    else
      var last := all[|all| - 1];
      AppointmentsOf(all[..|all| - 1], phone) + (if SamePhone(last, phone) then [last] else [])
  }

  /** The filter keeps exactly the appointments whose normalised phone is the sender's normalised phone. */
  lemma {:induction false} AppointmentsOfMembers(all: seq<Appointment>, phone: string)
    ensures forall a :: a in AppointmentsOf(all, phone) <==> a in all && SamePhone(a, phone)
    decreases |all|
  {
    if all != [] {
      var init, last := all[..|all| - 1], all[|all| - 1];
      AppointmentsOfMembers(init, phone);
      LastSplit(all);
    }
  }

  /** Every copy of a kept appointment is kept: the filter keeps its full count. */
  lemma {:induction false} AppointmentsOfCounted(all: seq<Appointment>, phone: string, a: Appointment)
    ensures multiset(AppointmentsOf(all, phone))[a] == (if SamePhone(a, phone) then multiset(all)[a] else 0)
    decreases |all|
  {
    if all != [] {
      var init, last := all[..|all| - 1], all[|all| - 1];
      var kept := AppointmentsOf(init, phone);
      AppointmentsOfCounted(init, phone, a);
      CountSnoc(all, a);
      if SamePhone(last, phone) {
        assert AppointmentsOf(all, phone) == kept + [last];
        CountSnoc(kept + [last], a);
        assert (kept + [last])[..|kept + [last]| - 1] == kept;
      } else {
        assert AppointmentsOf(all, phone) == kept;
      }
    }
  }

  /** The count of `x` in a non-empty sequence: its count in all but the last, plus the last. */
  lemma CountSnoc<T>(s: seq<T>, x: T)
    requires s != []
    ensures multiset(s)[x] == multiset(s[..|s| - 1])[x] + (if s[|s| - 1] == x then 1 else 0)
  {
    assert s == s[..|s| - 1] + [s[|s| - 1]];
  }

  /** The kept appointments appear in the order of the full list. */
  lemma {:induction false} AppointmentsOfInOrder(all: seq<Appointment>, phone: string)
    ensures Subsequence(AppointmentsOf(all, phone), all)
    decreases |all|
  {
    if all != [] {
      var init, last := all[..|all| - 1], all[|all| - 1];
      LastSplit(all);
      var kept := AppointmentsOf(init, phone);
      AppointmentsOfInOrder(init, phone);
      if SamePhone(last, phone) {
        assert AppointmentsOf(all, phone) == kept + [last];
        SubsequenceKeep(kept, init, last);
      } else {
        assert AppointmentsOf(all, phone) == kept;
        SubsequenceSkip(kept, init, last);
      }
    }
  }

  /** `sendUserAppointments`: the sender's appointments, or why there are none to show. */
  function AppointmentsResponse(user: string, appointments: Option<seq<Appointment>>): (r: Response)
    ensures appointments.None? ==> r == AppointmentsUnavailable
    ensures appointments.Some? && AppointmentsOf(appointments.value, user) == [] ==> r == NoAppointments
    ensures r.AppointmentList? ==> r.appointments != [] && r.appointments == AppointmentsOf(appointments.value, user)
    ensures appointments.Some? && AppointmentsOf(appointments.value, user) != [] ==>
      r == AppointmentList(AppointmentsOf(appointments.value, user))
  {
    match appointments
    case None => AppointmentsUnavailable
    case Some(all) =>
      var mine := AppointmentsOf(all, user);
      if mine == [] then NoAppointments else AppointmentList(mine)
  }

  // ---------------------------------------------------------------- weekly availability

  /** Days left before the next weekday: 2 on a Saturday, 1 on a Sunday, 0 on a weekday. */
  function WeekendLeft(n: int): nat
  {
    if WeekdayOfNumber(n) == 6 then 2 else if WeekdayOfNumber(n) == 0 then 1 else 0
  }

  /** A weekend day is one step closer to Monday than the day before it. */
  lemma WeekendShrinks(n: int)
    requires !IsWeekdayNumber(n)
    ensures WeekendLeft(n + 1) < WeekendLeft(n)
  {
    WeekdayStep(n);
  }

  /** The first `count` weekday numbers from `n` on, `n` included, one day at a time. */
  function WeekdayRun(n: int, count: nat): seq<int>
    decreases count, WeekendLeft(n)
  {
    if count == 0 then []
    else if IsWeekdayNumber(n) then [n] + WeekdayRun(n + 1, count - 1)
    else
      WeekendShrinks(n);
      WeekdayRun(n + 1, count)
  }

  /** The run holds `count` weekdays, none before `n`. */
  lemma {:induction false} RunWeekdays(n: int, count: nat)
    ensures var r := WeekdayRun(n, count);
      |r| == count && forall i :: 0 <= i < |r| ==> IsWeekdayNumber(r[i]) && n <= r[i]
    decreases count, WeekendLeft(n)
  {
    WeekdayStep(n);
    if count > 0 {
      if IsWeekdayNumber(n) {
        RunWeekdays(n + 1, count - 1);
      } else {
        RunWeekdays(n + 1, count);
      }
    }
  }

  predicate StrictlyIncreasing(r: seq<int>)
  {
    forall i, j :: 0 <= i < j < |r| ==> r[i] < r[j]
  }

  /** The run is strictly increasing. */
  lemma {:induction false} RunIncreasing(n: int, count: nat)
    ensures StrictlyIncreasing(WeekdayRun(n, count))
    decreases count, WeekendLeft(n)
  {
    if count > 0 {
      if IsWeekdayNumber(n) {
        var r, rest := WeekdayRun(n, count), WeekdayRun(n + 1, count - 1);
        assert r == [n] + rest;
        RunIncreasing(n + 1, count - 1);
        RunWeekdays(n + 1, count - 1);
        forall i, j | 0 <= i < j < |r|
          ensures r[i] < r[j]
        {
          assert r[j] == rest[j - 1];
          if i > 0 {
            assert r[i] == rest[i - 1];
          }
        }
      } else {
        WeekendShrinks(n);
        assert WeekdayRun(n, count) == WeekdayRun(n + 1, count);
        RunIncreasing(n + 1, count);
      }
    }
  }

  /** No weekday lies between `n` and the first day of the run. */
  lemma {:induction false} RunFromFirst(n: int, count: nat)
    requires count > 0
    ensures var r := WeekdayRun(n, count);
      |r| > 0 && forall m :: n <= m < r[0] ==> !IsWeekdayNumber(m)
    decreases WeekendLeft(n)
  {
    WeekdayStep(n);
    RunWeekdays(n, count);
    if !IsWeekdayNumber(n) {
      RunFromFirst(n + 1, count);
    }
  }

  /** No weekday lies between two consecutive days of the run: only weekends are skipped. */
  lemma {:induction false} RunNoGaps(n: int, count: nat)
    ensures var r := WeekdayRun(n, count);
      forall i, m :: 0 <= i < |r| - 1 && r[i] < m < r[i + 1] ==> !IsWeekdayNumber(m)
    decreases count, WeekendLeft(n)
  {
    WeekdayStep(n);
    if count > 0 {
      if !IsWeekdayNumber(n) {
        assert WeekdayRun(n, count) == WeekdayRun(n + 1, count);
        RunNoGaps(n + 1, count);
      } else if count > 1 {
        RunNoGaps(n + 1, count - 1);
        RunFromFirst(n + 1, count - 1);
        var r, rest := WeekdayRun(n, count), WeekdayRun(n + 1, count - 1);
        forall i, m | 0 <= i < |r| - 1 && r[i] < m < r[i + 1]
          ensures !IsWeekdayNumber(m)
        {
          assert r[i + 1] == rest[i];
          if i > 0 {
            assert r[i] == rest[i - 1];
          }
        }
      }
    }
  }

  /** The first `count` weekdays from `d` on, `d` included, walking one calendar day at a time. */
  function CollectWeekdays(d: CalDate, count: nat): seq<CalDate>
    requires ValidDate(d)
    decreases count, WeekendLeft(DayNumber(d))
  {
    NextDateStep(d);
    if count == 0 then []
    else if IsWeekday(d) then [d] + CollectWeekdays(NextDate(d), count - 1)
    else
      WeekendShrinks(DayNumber(d));
      CollectWeekdays(NextDate(d), count)
  }

  /** One step of the walk: a weekday is taken, a weekend day skipped. */
  lemma CollectStep(d: CalDate, count: nat)
    requires ValidDate(d) && count > 0
    ensures ValidDate(NextDate(d)) && DayNumber(NextDate(d)) == DayNumber(d) + 1
    ensures IsWeekday(d) ==> CollectWeekdays(d, count) == [d] + CollectWeekdays(NextDate(d), count - 1)
    ensures !IsWeekday(d) ==> CollectWeekdays(d, count) == CollectWeekdays(NextDate(d), count)
  {
    NextDateStep(d);
  }

  /** The days collected so far followed by the days still to collect from `d` make up `target`. */
  predicate WalkInvariant(days: seq<CalDate>, d: CalDate, count: nat, target: seq<CalDate>)
  {
    ValidDate(d) && days + CollectWeekdays(d, count) == target
  }

  /** Before the first turn nothing is collected and the whole run lies ahead. */
  lemma WalkStart(today: CalDate, count: nat, target: seq<CalDate>)
    requires ValidDate(today) && target == CollectWeekdays(today, count)
    ensures WalkInvariant([], today, count, target)
  {
    assert [] + target == target;
  }

  /**
   * One turn of the day loop keeps the walk invariant: a weekday is collected, a weekend
   * day is skipped and brings the next weekday closer.
   */
  lemma WalkStep(days: seq<CalDate>, d: CalDate, count: nat, target: seq<CalDate>,
                 days': seq<CalDate>, count': nat, e: CalDate)
    requires count > 0 && WalkInvariant(days, d, count, target)
    requires if DayOfWeek(d) != 0 && DayOfWeek(d) != 6
             then days' == days + [d] && count' == count - 1
             else days' == days && count' == count
    requires e == NextDate(d)
    ensures WalkInvariant(days', e, count', target)
    ensures count' < count || WeekendLeft(DayNumber(e)) < WeekendLeft(DayNumber(d))
  {
    CollectStep(d, count);
    if IsWeekday(d) {
      assert days + ([d] + CollectWeekdays(NextDate(d), count - 1)) == (days + [d]) + CollectWeekdays(NextDate(d), count - 1);
    } else {
      WeekendShrinks(DayNumber(d));
    }
  }

  /** The dates, all real, have the day numbers of `run`, position by position. */
  predicate TracksRun(r: seq<CalDate>, run: seq<int>)
  {
    |r| == |run| && forall i :: 0 <= i < |r| ==> ValidDate(r[i]) && DayNumber(r[i]) == run[i]
  }

  lemma TracksCons(d: CalDate, rest: seq<CalDate>, run: seq<int>)
    requires ValidDate(d) && TracksRun(rest, run)
    ensures TracksRun([d] + rest, [DayNumber(d)] + run)
  {
    var r := [d] + rest;
    forall i | 0 < i < |r| ensures ValidDate(r[i]) && DayNumber(r[i]) == ([DayNumber(d)] + run)[i] {
      assert r[i] == rest[i - 1];
    }
  }

  /** A weekday starts both the walk and the run. */
  lemma TracksTaken(d: CalDate, count: nat)
    requires ValidDate(d) && count > 0 && IsWeekday(d)
    requires TracksRun(CollectWeekdays(NextDate(d), count - 1), WeekdayRun(DayNumber(d) + 1, count - 1))
    ensures TracksRun(CollectWeekdays(d, count), WeekdayRun(DayNumber(d), count))
  {
    CollectStep(d, count);
    TracksCons(d, CollectWeekdays(NextDate(d), count - 1), WeekdayRun(DayNumber(d) + 1, count - 1));
  }

  /** A weekend day is skipped by both the walk and the run. */
  lemma TracksSkipped(d: CalDate, count: nat)
    requires ValidDate(d) && count > 0 && !IsWeekday(d)
    requires TracksRun(CollectWeekdays(NextDate(d), count), WeekdayRun(DayNumber(d) + 1, count))
    ensures TracksRun(CollectWeekdays(d, count), WeekdayRun(DayNumber(d), count))
  {
    CollectStep(d, count);
    assert WeekdayRun(DayNumber(d), count) == WeekdayRun(DayNumber(d) + 1, count);
  }

  /** The calendar walk visits the day numbers of the run. */
  lemma {:induction false} CollectedRun(d: CalDate, count: nat)
    requires ValidDate(d)
    ensures TracksRun(CollectWeekdays(d, count), WeekdayRun(DayNumber(d), count))
    decreases count, WeekendLeft(DayNumber(d))
  {
    if count > 0 {
      NextDateStep(d);
      if IsWeekday(d) {
        CollectedRun(NextDate(d), count - 1);
        TracksTaken(d, count);
      } else {
        WeekendShrinks(DayNumber(d));
        CollectedRun(NextDate(d), count);
        TracksSkipped(d, count);
      }
    }
  }

  /** The walk yields `count` real dates. */
  lemma CollectedValid(d: CalDate, count: nat)
    requires ValidDate(d)
    ensures var r := CollectWeekdays(d, count);
      |r| == count && forall i :: 0 <= i < |r| ==> ValidDate(r[i])
  {
    CollectedRun(d, count);
    RunWeekdays(DayNumber(d), count);
  }

  /**
   * The walk of `sendWeeklyAvailability` collects `count` weekdays in increasing order,
   * none before `d`, and passes over no weekday on the way.
   */
  lemma CollectedWeekdays(d: CalDate, count: nat)
    requires ValidDate(d)
    ensures var r := CollectWeekdays(d, count);
      |r| == count && (forall i :: 0 <= i < |r| ==> ValidDate(r[i]) && IsWeekday(r[i]) && DayNumber(d) <= DayNumber(r[i])) &&
      (forall i, j :: 0 <= i < j < |r| ==> DayNumber(r[i]) < DayNumber(r[j])) &&
      (count > 0 ==> forall m :: DayNumber(d) <= m < DayNumber(r[0]) ==> !IsWeekdayNumber(m)) &&
      (forall i, m :: 0 <= i < |r| - 1 && DayNumber(r[i]) < m < DayNumber(r[i + 1]) ==> !IsWeekdayNumber(m))
  {
    CollectedRun(d, count);
    RunWeekdays(DayNumber(d), count);
    RunIncreasing(DayNumber(d), count);
    RunNoGaps(DayNumber(d), count);
    if count > 0 {
      RunFromFirst(DayNumber(d), count);
    }
  }

  /** The loop of `sendWeeklyAvailability`: five weekdays from today on. */
  method WeekdaysFrom(today: CalDate) returns (days: seq<CalDate>)
    requires ValidDate(today)
    ensures days == CollectWeekdays(today, 5)
  {
    days := [];
    var currentDate := today;
    var daysFound := 0;
    ghost var target := CollectWeekdays(today, 5);
    WalkStart(today, 5, target);
    while daysFound < 5
      invariant daysFound == |days| <= 5 && WalkInvariant(days, currentDate, 5 - daysFound, target)
      decreases 5 - daysFound, WeekendLeft(DayNumber(currentDate))
    {
      ghost var days0, date0, left0 := days, currentDate, 5 - daysFound;
      var dayOfWeek := DayOfWeek(currentDate);
      if dayOfWeek != 0 && dayOfWeek != 6 {
        days := days + [currentDate];
        daysFound := daysFound + 1;
      }
      currentDate := NextDate(currentDate);
      WalkStep(days0, date0, left0, target, days, 5 - daysFound, currentDate);
    }
    assert days + CollectWeekdays(currentDate, 0) == target;
  }

  /** `toISOString` of the year: four digits, or a sign and six digits outside 0..9999. */
  function IsoYear(y: int): (r: string)
  {
    if 0 <= y <= 9999 then Pad4(y)
    else if y > 9999 then "+" + FixedDigits(y, 6)
    else "-" + FixedDigits(-y, 6)
  }

  /** `toISOString().split('T')[0]` of a date, read as a calendar day. */
  function IsoDateText(d: CalDate): (r: string)
    requires ValidDate(d)
    ensures 0 <= d.year <= 9999 ==> r == Validation.FormatIsoDate(d)
  {
    IsoYear(d.year) + "-" + Pad2(d.month + 1) + "-" + Pad2(d.day)
  }

  /** The availability of one day for both departments. */
  function DayReport(res: map<string, Reservation>, d: CalDate, db: (Option<string>, Option<Department>) -> SlotQuery): DayAvailability
    requires ValidDate(d)
  {
    var date := IsoDateText(d);
    DayAvailability(d, ViewOf(res, date, Ortho, db(Some(date), Some(Ortho))), ViewOf(res, date, ENT, db(Some(date), Some(ENT))))
  }

  /** The overview: one report per day, in the order of the days. */
  function WeeklyReport(res: map<string, Reservation>, days: seq<CalDate>, db: (Option<string>, Option<Department>) -> SlotQuery): (r: seq<DayAvailability>)
    requires forall i :: 0 <= i < |days| ==> ValidDate(days[i])
    ensures |r| == |days|
  {
    if days == [] then []
    else WeeklyReport(res, days[..|days| - 1], db) + [DayReport(res, days[|days| - 1], db)]
  }

  /** Entry `i` of the overview is the report of day `i`. */
  lemma {:induction false} WeeklyReportAt(res: map<string, Reservation>, days: seq<CalDate>, db: (Option<string>, Option<Department>) -> SlotQuery, i: nat)
    requires i < |days| && forall k :: 0 <= k < |days| ==> ValidDate(days[k])
    ensures WeeklyReport(res, days, db)[i] == DayReport(res, days[i], db)
    decreases |days|
  {
    var init := days[..|days| - 1];
    if i < |days| - 1 {
      WeeklyReportAt(res, init, db, i);
    }
  }

  lemma ReportStep(res: map<string, Reservation>, days: seq<CalDate>, i: nat, db: (Option<string>, Option<Department>) -> SlotQuery)
    requires i < |days| && forall k :: 0 <= k < |days| ==> ValidDate(days[k])
    ensures WeeklyReport(res, days[..i + 1], db) == WeeklyReport(res, days[..i], db) + [DayReport(res, days[i], db)]
  {
    assert days[..i + 1][..i] == days[..i];
  }

  /** The weekly overview of today: five weekdays from today on, each with both departments. */
  function WeeklyOverviewOf(res: map<string, Reservation>, today: CalDate, db: (Option<string>, Option<Department>) -> SlotQuery): (r: seq<DayAvailability>)
    requires ValidDate(today)
    ensures |r| == 5
  {
    var days := CollectWeekdays(today, 5);
    CollectedValid(today, 5);
    WeeklyReport(res, days, db)
  }

  /** `sendWeeklyAvailability`: collect the five weekdays, then report on each. */
  method WeeklyAvailability(store: Store, today: CalDate, db: (Option<string>, Option<Department>) -> SlotQuery)
    returns (report: seq<DayAvailability>)
    requires ValidDate(today)
    ensures report == WeeklyOverviewOf(store.reservations, today, db)
  {
    var currentWeek := WeekdaysFrom(today);
    CollectedValid(today, 5);
    report := ReportDays(store, currentWeek, db);
  }

  /** The loop over the collected days: both departments' views for each day, in order. */
  method ReportDays(store: Store, days: seq<CalDate>, db: (Option<string>, Option<Department>) -> SlotQuery)
    returns (report: seq<DayAvailability>)
    requires forall k :: 0 <= k < |days| ==> ValidDate(days[k])
    ensures report == WeeklyReport(store.reservations, days, db)
  {
    report := [];
    var i := 0;
    while i < |days|
      invariant 0 <= i <= |days|
      invariant report == WeeklyReport(store.reservations, days[..i], db)
    {
      var date := days[i];
      var dateFormatted := IsoDateText(date);
      var ortho := SlotsWithReservations(store, dateFormatted, Ortho, db(Some(dateFormatted), Some(Ortho)));
      var ent := SlotsWithReservations(store, dateFormatted, ENT, db(Some(dateFormatted), Some(ENT)));
      ReportStep(store.reservations, days, i, db);
      report := report + [DayAvailability(date, ortho, ent)];
      i := i + 1;
    }
    assert days[..i] == days;
  }

  // ---------------------------------------------------------------- the dispatcher

  /** messageHandlerService.ts lines 24-30: the sender's session, or a fresh idle one, is stored with the activity time `now`. */
  function Touched(st: StoreState, user: string, now: int): (r: StoreState)
    ensures user in r.sessions && r.sessions[user] == Lookup(st, user).(lastActivityTime := Some(now))
    ensures r.reservations == st.reservations
    ensures forall u :: u in st.sessions && u != user ==> u in r.sessions && r.sessions[u] == st.sessions[u]
  {
    WithSession(st, user, Lookup(st, user).(lastActivityTime := Some(now)))
  }

  /** The cancel command: the session's reservation goes when it has a date and a slot, then the session. */
  function Cancelled(st: StoreState, user: string): (r: StoreState)
    requires user in st.sessions
    ensures r.sessions == st.sessions - {user}
    ensures HeldKey(st.sessions[user]).Some? ==> r.reservations == st.reservations - {HeldKey(st.sessions[user]).value}
    ensures HeldKey(st.sessions[user]).None? ==> r.reservations == st.reservations
  {
    var s := st.sessions[user];
    var cleared := if IsSet(s.selectedDate) && IsSet(s.selectedSlot)
      then WithoutReservation(st, ReservationKey(s.selectedDate.value, s.selectedDepartment, s.selectedSlot.value))
      else st;
    WithoutSession(cleared, user)
  }

  /** The text the dispatcher works on: the body lower-cased, not trimmed; no body reads as empty. */
  function MessageText(body: Option<string>): string
  {
    if body.Some? then ToLower(body.value) else ""
  }

  /** `handleIncomingMessage` on the store's tables. */
  function AfterMessage(st: StoreState, user: string, body: Option<string>, now: int, today: CalDate,
                        db: (Option<string>, Option<Department>) -> SlotQuery, slots: seq<string>,
                        create: AppointmentData -> bool, appointments: Option<seq<Appointment>>): (o: Result)
    requires ValidDate(today)
    ensures var r := RouteOf(MessageText(body), Lookup(st, user).step);
      o.response.Flow? <==> r == CancelBooking || r.StepHandler?
    ensures var r := RouteOf(MessageText(body), Lookup(st, user).step);
      r != CancelBooking && !r.StepHandler? ==>
        o.state.reservations == st.reservations && user in o.state.sessions
        && o.state.sessions[user].lastActivityTime == Some(now)
    ensures RouteOf(MessageText(body), Lookup(st, user).step) == StartBooking ==>
      o.response == BookingInfo && o.state.sessions[user].step == WaitingForBookingConfirmation
    ensures forall u :: u in st.sessions && u != user ==> u in o.state.sessions && o.state.sessions[u] == st.sessions[u]
  {
    var text := MessageText(body);
    var st1 := Touched(st, user, now);
    var s := st1.sessions[user];
    match RouteOf(text, s.step)
    case StartBooking => Result(WithStep(st1, user, WaitingForBookingConfirmation, now), BookingInfo)
    case ListAppointments => Result(st1, AppointmentsResponse(user, appointments))
    case ShowHelp => Result(st1, HelpMessage)
    case ShowWeek => Result(st1, WeeklyOverview(WeeklyOverviewOf(st1.reservations, today, db)))
    case CancelBooking => Result(Cancelled(st1, user), Flow(CancellationNotice))
    case SendWelcome => Result(st1, Welcome)
    case StepHandler(step) =>
      var out := StepOutcome(st1, user, step, text, now, today, db, slots, create);
      Result(out.state, Flow(out.reply))
  }

  /** The booking handler of a non-idle step; the slot step asks the database about the session's date and department. */
  function StepOutcome(st: StoreState, user: string, step: Step, text: string, now: int, today: CalDate,
                       db: (Option<string>, Option<Department>) -> SlotQuery, slots: seq<string>,
                       create: AppointmentData -> bool): (o: Outcome)
    requires ValidDate(today) && user in st.sessions && step != Idle
    ensures o.reply.ErrorNotice? && o.reply.problem != AppointmentFailed ==> o.state == st
    ensures user !in o.state.sessions <==> o.reply.CancellationNotice? || o.reply.Confirmed?
    ensures forall u :: u in st.sessions && u != user ==> u in o.state.sessions && o.state.sessions[u] == st.sessions[u]
  {
    match step
    case WaitingForBookingConfirmation => AfterBookingConfirmation(st, user, text, now)
    case WaitingForDepartment => AfterDepartmentSelection(st, user, text, now)
    case WaitingForDate => AfterDateSelection(st, user, text, now, today, db)
    case WaitingForSlot =>
      AfterSlotSelection(st, user, text, now, slots, db(st.sessions[user].selectedDate, st.sessions[user].selectedDepartment))
    case WaitingForDetails => AfterPatientDetails(st, user, text, now, create)
  }

  method HandleIncomingMessage(store: Store, user: string, body: Option<string>, now: int, today: CalDate,
                               db: (Option<string>, Option<Department>) -> SlotQuery, slots: seq<string>,
                               create: AppointmentData -> bool, appointments: Option<seq<Appointment>>)
    returns (response: Response)
    requires ValidDate(today)
    modifies store
    ensures Result(store.State(), response) == AfterMessage(old(store.State()), user, body, now, today, db, slots, create, appointments)
  {
    var messageText := MessageText(body);
    var userState := store.GetUserState(user);
    userState := userState.(lastActivityTime := Some(now));
    store.SetUserState(user, userState);
    var route := RouteOf(messageText, userState.step);
    match route {
      case StartBooking =>
        store.UpdateUserStep(user, WaitingForBookingConfirmation, now);
        response := BookingInfo;
      case ListAppointments =>
        response := AppointmentsResponse(user, appointments);
      case ShowHelp =>
        response := HelpMessage;
      case ShowWeek =>
        var report := WeeklyAvailability(store, today, db);
        response := WeeklyOverview(report);
      case CancelBooking =>
        CancelUserBooking(store, user);
        response := Flow(CancellationNotice);
      case SendWelcome =>
        response := Welcome;
      case StepHandler(step) =>
        var reply := HandleStep(store, user, step, messageText, now, today, db, slots, create);
        response := Flow(reply);
    }
  }

  /** messageHandlerService.ts lines 50-57: drop the reservation the session names, then the session. */
  method CancelUserBooking(store: Store, user: string)
    requires user in store.sessions
    modifies store
    ensures store.State() == Cancelled(old(store.State()), user)
  {
    var existingUserState := store.GetUserState(user);
    if IsSet(existingUserState.selectedDate) && IsSet(existingUserState.selectedSlot) {
      var reservationKey := ReservationKey(existingUserState.selectedDate.value, existingUserState.selectedDepartment,
                                           existingUserState.selectedSlot.value);
      store.DeleteTemporaryReservation(reservationKey);
    }
    store.DeleteUserState(user);
  }

  method HandleStep(store: Store, user: string, step: Step, messageText: string, now: int, today: CalDate,
                    db: (Option<string>, Option<Department>) -> SlotQuery, slots: seq<string>,
                    create: AppointmentData -> bool) returns (reply: Reply)
    requires ValidDate(today) && user in store.sessions && step != Idle
    modifies store
    ensures Outcome(store.State(), reply) == StepOutcome(old(store.State()), user, step, messageText, now, today, db, slots, create)
  {
    match step {
      case WaitingForBookingConfirmation =>
        reply := HandleBookingConfirmation(store, user, messageText, now);
      case WaitingForDepartment =>
        reply := HandleDepartmentSelection(store, user, messageText, now);
      case WaitingForDate =>
        reply := HandleDateSelection(store, user, messageText, now, today, db);
      case WaitingForSlot =>
        reply := HandleSlotSelection(store, user, messageText, now, slots, db);
      case WaitingForDetails =>
        reply := HandlePatientDetails(store, user, messageText, now, create);
    }
  }

  // ---------------------------------------------------------------- properties of the dispatcher

  /** The user has a session whose last activity is `now`. */
  predicate ActiveAt(st: StoreState, user: string, now: int)
  {
    user in st.sessions && st.sessions[user].lastActivityTime == Some(now)
  }

  lemma DepartmentKeepsSession(st: StoreState, user: string, text: string, now: int)
    requires ActiveAt(st, user, now)
    ensures ActiveAt(AfterDepartmentSelection(st, user, text, now).state, user, now)
  {
  }

  lemma DateKeepsSession(st: StoreState, user: string, text: string, now: int, today: CalDate,
                         db: (Option<string>, Option<Department>) -> SlotQuery)
    requires ValidDate(today) && ActiveAt(st, user, now)
    ensures ActiveAt(AfterDateSelection(st, user, text, now, today, db).state, user, now)
  {
  }

  lemma SlotKeepsSession(st: StoreState, user: string, text: string, now: int, slots: seq<string>, q: SlotQuery)
    requires ActiveAt(st, user, now)
    ensures ActiveAt(AfterSlotSelection(st, user, text, now, slots, q).state, user, now)
  {
  }

  /** The department, date and slot handlers keep the session of an active user active. */
  lemma StepKeepsSession(st: StoreState, user: string, step: Step, text: string, now: int, today: CalDate,
                         db: (Option<string>, Option<Department>) -> SlotQuery, slots: seq<string>,
                         create: AppointmentData -> bool)
    requires ValidDate(today) && ActiveAt(st, user, now)
    requires step in {WaitingForDepartment, WaitingForDate, WaitingForSlot}
    ensures ActiveAt(StepOutcome(st, user, step, text, now, today, db, slots, create).state, user, now)
  {
    match step {
      case WaitingForDepartment => DepartmentKeepsSession(st, user, text, now);
      case WaitingForDate => DateKeepsSession(st, user, text, now, today, db);
      case WaitingForSlot =>
        SlotKeepsSession(st, user, text, now, slots, db(st.sessions[user].selectedDate, st.sessions[user].selectedDepartment));
    }
  }

  /** Every message leaves the sender with a session unless it cancels or ends the booking. */
  lemma {:induction false} MessageKeepsSession(st: StoreState, user: string, body: Option<string>, now: int, today: CalDate,
                                               db: (Option<string>, Option<Department>) -> SlotQuery, slots: seq<string>,
                                               create: AppointmentData -> bool, appointments: Option<seq<Appointment>>)
    requires ValidDate(today)
    requires !HasCommand(MessageText(body)) || Contains(MessageText(body), "book")
    requires Lookup(st, user).step !in {WaitingForBookingConfirmation, WaitingForDetails}
    ensures var o := AfterMessage(st, user, body, now, today, db, slots, create, appointments);
      user in o.state.sessions && o.state.sessions[user].lastActivityTime == Some(now)
  {
    var text, st1 := MessageText(body), Touched(st, user, now);
    assert ActiveAt(st1, user, now);
    match RouteOf(text, st1.sessions[user].step)
    case StepHandler(step) => StepKeepsSession(st1, user, step, text, now, today, db, slots, create);
    case _ =>
  }

  /** A message without a command from an idle or unseen user stores an idle session and gets the welcome. */
  lemma {:induction false} IdleGetsWelcome(st: StoreState, user: string, body: Option<string>, now: int, today: CalDate,
                                           db: (Option<string>, Option<Department>) -> SlotQuery, slots: seq<string>,
                                           create: AppointmentData -> bool, appointments: Option<seq<Appointment>>)
    requires ValidDate(today) && !HasCommand(MessageText(body)) && Lookup(st, user).step == Idle
    ensures AfterMessage(st, user, body, now, today, db, slots, create, appointments)
         == Result(Touched(st, user, now), Welcome)
  {
  }

  /** The cancel command removes the session and exactly the reservation it holds, whatever the step. */
  lemma {:induction false} CancelCommand(st: StoreState, user: string, body: Option<string>, now: int, today: CalDate,
                                         db: (Option<string>, Option<Department>) -> SlotQuery, slots: seq<string>,
                                         create: AppointmentData -> bool, appointments: Option<seq<Appointment>>)
    requires ValidDate(today)
    requires RouteOf(MessageText(body), Lookup(st, user).step) == CancelBooking
    ensures var o := AfterMessage(st, user, body, now, today, db, slots, create, appointments);
      o.response == Flow(CancellationNotice) && o.state.sessions == st.sessions - {user} &&
      o.state.reservations == (if HeldKey(Lookup(st, user)).Some? then st.reservations - {HeldKey(Lookup(st, user)).value} else st.reservations)
  {
    var st1 := Touched(st, user, now);
    assert HeldKey(st1.sessions[user]) == HeldKey(Lookup(st, user));
    assert st1.sessions - {user} == st.sessions - {user};
  }
}
