/**
 * The booking conversation, one handler per step: confirming, choosing a department,
 * a date, a time slot, and giving the patient's details, which creates the appointment.
 *
 * Each handler is a pure transition `After...` from the store's tables to new tables and
 * the one message the handler sends (`Reply`), and a method `Handle...` that performs
 * the same steps through the `Store` it is given and is proved to end in that
 * transition. The appointment database is given as values: `SlotQuery` is the answer
 * of `getAvailableSlotsForDate` for a date and department, `slots` is
 * `AVAILABLE_TIME_SLOTS`, `create` says whether `createAppointment` succeeds for the
 * data sent. The clock is `now` (milliseconds) and `today`.
 *
 * The handlers that read the session they are given (`userState`) read the stored one:
 * the dispatcher stores the very object it passes, so every later change made through
 * the store is visible through it. They therefore ask that the user has a session.
 */
module BookingFlow {
  import opened Wrappers
  import opened Text
  import opened Calendar
  import Validation
  import TimeParsing
  import opened UserState

  /** What the appointment database answers for one date and department. */
  datatype SlotQuery = SlotQuery(available: seq<string>, booked: seq<string>, error: Option<string>)

  /** `getAvailableSlotsWithReservations`: free slots, booked slots, slots held by a reservation. */
  datatype SlotsView = SlotsView(available: seq<string>, booked: seq<string>, reserved: seq<string>, error: Option<string>)

  /** The record `createAppointment` is called with. */
  datatype AppointmentData = AppointmentData(
    patientName: Option<string>,
    patientPhone: Option<string>,
    department: Department,
    date: string,
    timeSlot: string)

  /** Why a handler answered with an error message. */
  datatype Problem =
    | ConfirmationExpected                        // neither a yes nor a no word
    | InvalidDepartment                           // not 1, 2, ortho or ent
    | DateRejected(error: Validation.DateError)   // the date rules refused the text
    | DateMissing                                 // no formatted date came back
    | NoDepartment                                // the session has no department
    | AvailabilityFailed(message: string)         // the database reported an error for the date
    | NoSlotsLeft                                 // every slot of the date is taken or held
    | TimeUnreadable(input: string)               // not a time the parser reads
    | TimeNotOffered(input: string, slot: string) // a time the clinic does not offer
    | AvailabilityCheckFailed                     // the database reported an error for the slot
    | SlotTaken(slot: string)                     // booked meanwhile
    | SlotHeld(slot: string)                      // reserved by another user
    | DetailsFormat                               // neither the line nor the comma form
    | NameTooShort
    | PhoneTooShort
    | AppointmentFailed                           // missing data or the database refused

  /** The message a handler sends. */
  datatype Reply =
    | AskDepartment
    | CancellationNotice
    | AskDate(department: Option<Department>)
    | ShowSlots(dateInput: string, available: seq<string>, shownDepartment: Department)
    | AskDetails(date: Option<string>, slot: string, department: Option<Department>)
    | Confirmed(data: AppointmentData)
    | ErrorNotice(problem: Problem)

  datatype Outcome = Outcome(state: StoreState, reply: Reply)

  /**
   * What every step handler keeps: an error notice, except a failed insert, leaves the
   * tables as they were; the sender's session ends exactly on a cancellation or a
   * confirmation; no other user's session changes.
   */
  predicate Scoped(st: StoreState, user: string, o: Outcome)
  {
    (o.reply.ErrorNotice? && o.reply.problem != AppointmentFailed ==> o.state == st)
    && (user !in o.state.sessions <==> o.reply.CancellationNotice? || o.reply.Confirmed?)
    && forall u :: u in st.sessions && u != user ==> u in o.state.sessions && o.state.sessions[u] == st.sessions[u]
  }

  /** How an optional text renders in a template: an absent one reads "undefined". */
  function OptionText(o: Option<string>): string
  {
    if o.Some? then o.value else "undefined"
  }

  // ---------------------------------------------------------------- confirmation

  predicate IsYesWord(w: string)
  {
    w == "yes" || w == "continue" || w == "ok" || w == "proceed"
  }

  predicate IsNoWord(w: string)
  {
    w == "cancel" || w == "no" || w == "stop"
  }

  /** `handleBookingConfirmation`: a yes word moves on to the department, a no word ends the session. */
  function AfterBookingConfirmation(st: StoreState, user: string, text: string, now: int): (o: Outcome)
    ensures IsYesWord(Trim(ToLower(text))) ==>
      o == Outcome(WithStep(st, user, WaitingForDepartment, now), AskDepartment)
    ensures IsNoWord(Trim(ToLower(text))) ==> o == Outcome(WithoutSession(st, user), CancellationNotice)
    ensures !IsYesWord(Trim(ToLower(text))) && !IsNoWord(Trim(ToLower(text))) ==>
      o == Outcome(st, ErrorNotice(ConfirmationExpected))
    ensures user in st.sessions ==> Scoped(st, user, o)
  {
    var response := Trim(ToLower(text));
    if IsYesWord(response) then Outcome(WithStep(st, user, WaitingForDepartment, now), AskDepartment)
    else if IsNoWord(response) then Outcome(WithoutSession(st, user), CancellationNotice)
    else Outcome(st, ErrorNotice(ConfirmationExpected))
  }

  // ---------------------------------------------------------------- department

  /** The department a (trimmed) answer names. */
  function DepartmentChoice(answer: string): (d: Option<Department>)
    ensures d == Some(Ortho) <==> answer == "1" || answer == "ortho"
    ensures d == Some(ENT) <==> answer == "2" || answer == "ent"
  {
    if answer == "1" || answer == "ortho" then Some(Ortho)
    else if answer == "2" || answer == "ent" then Some(ENT)
    else None
  }

  /**
   * `handleDepartmentSelection`: the department is written into the session, then the
   * step moves to the date; any other answer changes nothing.
   */
  function AfterDepartmentSelection(st: StoreState, user: string, text: string, now: int): (o: Outcome)
    requires user in st.sessions
    ensures o.reply.AskDate? <==> DepartmentChoice(Trim(text)).Some?
    ensures o.reply.AskDate? ==> o.reply.department == DepartmentChoice(Trim(text))
    ensures o.reply.AskDate? ==>
      o.state == WithStep(WithSession(st, user, st.sessions[user].(selectedDepartment := DepartmentChoice(Trim(text)))),
                             user, WaitingForDate, now)
    ensures !o.reply.AskDate? ==> o == Outcome(st, ErrorNotice(InvalidDepartment))
    ensures Scoped(st, user, o)
  {
    var choice := DepartmentChoice(Trim(text));
    if choice.None? then Outcome(st, ErrorNotice(InvalidDepartment))
    else
      var chosen := WithSession(st, user, st.sessions[user].(selectedDepartment := choice));
      Outcome(WithStep(chosen, user, WaitingForDate, now), AskDate(choice))
  }

  // ---------------------------------------------------------------- availability

  function SlotKey(date: string, dept: Department, slot: string): string
  {
    ReservationKey(date, Some(dept), slot)
  }

  /** The slots of `slots` that no reservation holds, in order. */
  function Unreserved(res: map<string, Reservation>, date: string, dept: Department, slots: seq<string>): seq<string>
  {
    if slots == [] then []
    else
      var last := slots[|slots| - 1];
      Unreserved(res, date, dept, slots[..|slots| - 1]) + (if SlotKey(date, dept, last) in res then [] else [last])
  }

  /** The slots of `slots` that some reservation holds, in order. */
  function Reserved(res: map<string, Reservation>, date: string, dept: Department, slots: seq<string>): seq<string>
  {
    if slots == [] then []
    else
      var last := slots[|slots| - 1];
      Reserved(res, date, dept, slots[..|slots| - 1]) + (if SlotKey(date, dept, last) in res then [last] else [])
  }

  /** The view `getAvailableSlotsWithReservations` returns: an error empties all three lists. */
  function ViewOf(res: map<string, Reservation>, date: string, dept: Department, q: SlotQuery): (v: SlotsView)
    ensures IsSet(q.error) ==> v == SlotsView([], [], [], q.error)
    ensures !IsSet(q.error) ==> v.error.None? && v.booked == q.booked
  {
    if IsSet(q.error) then SlotsView([], [], [], q.error)
    else SlotsView(Unreserved(res, date, dept, q.available), q.booked, Reserved(res, date, dept, q.available), None)
  }

  /** `a` is `b` with some elements left out, the rest in order. */
  predicate Subsequence<T(==)>(a: seq<T>, b: seq<T>)
    decreases |b|
  {
    a == [] ||
    (b != [] &&
     ((a[|a| - 1] == b[|b| - 1] && Subsequence(a[..|a| - 1], b[..|b| - 1])) || Subsequence(a, b[..|b| - 1])))
  }

  /** The free slots keep the order of the database's list. */
  lemma {:induction false} UnreservedInOrder(res: map<string, Reservation>, date: string, dept: Department, slots: seq<string>)
    ensures Subsequence(Unreserved(res, date, dept, slots), slots)
    decreases |slots|
  {
    if slots != [] {
      var init, last := slots[..|slots| - 1], slots[|slots| - 1];
      UnreservedInOrder(res, date, dept, init);
      var u := Unreserved(res, date, dept, init);
      if SlotKey(date, dept, last) in res {
        assert Unreserved(res, date, dept, slots) == u;
        LastSplit(slots);
        SubsequenceSkip(u, init, last);
      } else {
        assert Unreserved(res, date, dept, slots) == u + [last];
        LastSplit(slots);
        SubsequenceKeep(u, init, last);
      }
    }
  }

  /** The held slots keep the order of the database's list. */
  lemma {:induction false} ReservedInOrder(res: map<string, Reservation>, date: string, dept: Department, slots: seq<string>)
    ensures Subsequence(Reserved(res, date, dept, slots), slots)
    decreases |slots|
  {
    if slots != [] {
      var init, last := slots[..|slots| - 1], slots[|slots| - 1];
      ReservedInOrder(res, date, dept, init);
      var r := Reserved(res, date, dept, init);
      LastSplit(slots);
      if SlotKey(date, dept, last) in res {
        assert Reserved(res, date, dept, slots) == r + [last];
        SubsequenceKeep(r, init, last);
      } else {
        assert Reserved(res, date, dept, slots) == r;
        SubsequenceSkip(r, init, last);
      }
    }
  }

  /** Together the free and the held slots hold every slot of the list as often as the list does. */
  lemma {:induction false} SlotsCounted(res: map<string, Reservation>, date: string, dept: Department, slots: seq<string>)
    ensures multiset(Unreserved(res, date, dept, slots)) + multiset(Reserved(res, date, dept, slots)) == multiset(slots)
    decreases |slots|
  {
    if slots != [] {
      var init, last := slots[..|slots| - 1], slots[|slots| - 1];
      SlotsCounted(res, date, dept, init);
      var u, r := Unreserved(res, date, dept, init), Reserved(res, date, dept, init);
      LastSplit(slots);
      if SlotKey(date, dept, last) in res {
        assert Reserved(res, date, dept, slots) == r + [last];
        assert Unreserved(res, date, dept, slots) == u;
      } else {
        assert Unreserved(res, date, dept, slots) == u + [last];
        assert Reserved(res, date, dept, slots) == r;
      }
      SplitCount(u, r, init, last, Unreserved(res, date, dept, slots), Reserved(res, date, dept, slots));
    }
  }

  /** Adding the next element to one side of a split keeps the two sides counting the whole. */
  lemma SplitCount<T>(u: seq<T>, r: seq<T>, init: seq<T>, x: T, u': seq<T>, r': seq<T>)
    requires multiset(u) + multiset(r) == multiset(init)
    requires (u' == u + [x] && r' == r) || (u' == u && r' == r + [x])
    ensures multiset(u') + multiset(r') == multiset(init + [x])
  {
    assert multiset(init + [x]) == multiset(init) + multiset{x};
  }

  /** A slot is held exactly when a reservation exists for its key, whoever made it. */
  lemma {:induction false} SlotsSplitByKey(res: map<string, Reservation>, date: string, dept: Department, slots: seq<string>)
    ensures forall x :: x in Unreserved(res, date, dept, slots) <==> x in slots && SlotKey(date, dept, x) !in res
    ensures forall x :: x in Reserved(res, date, dept, slots) <==> x in slots && SlotKey(date, dept, x) in res
    decreases |slots|
  {
    if slots != [] {
      var init, last := slots[..|slots| - 1], slots[|slots| - 1];
      SlotsSplitByKey(res, date, dept, init);
      LastSplit(slots);
    }
  }

  /** A non-empty sequence is its front followed by its last element. */
  lemma LastSplit<T>(s: seq<T>)
    requires s != []
    ensures s == s[..|s| - 1] + [s[|s| - 1]]
  {
  }

  lemma SubsequenceSkip<T>(a: seq<T>, b: seq<T>, x: T)
    requires Subsequence(a, b)
    ensures Subsequence(a, b + [x])
  {
    assert (b + [x])[..|b|] == b;
  }

  lemma SubsequenceKeep<T>(a: seq<T>, b: seq<T>, x: T)
    requires Subsequence(a, b)
    ensures Subsequence(a + [x], b + [x])
  {
    assert (b + [x])[..|b|] == b;
    assert (a + [x])[..|a|] == a;
  }

  /** Adding one more slot at the end adds it to exactly one of the two lists. */
  lemma PartitionStep(res: map<string, Reservation>, date: string, dept: Department, slots: seq<string>, i: nat)
    requires i < |slots|
    ensures SlotKey(date, dept, slots[i]) in res ==>
      Reserved(res, date, dept, slots[..i + 1]) == Reserved(res, date, dept, slots[..i]) + [slots[i]] &&
      Unreserved(res, date, dept, slots[..i + 1]) == Unreserved(res, date, dept, slots[..i])
    ensures SlotKey(date, dept, slots[i]) !in res ==>
      Reserved(res, date, dept, slots[..i + 1]) == Reserved(res, date, dept, slots[..i]) &&
      Unreserved(res, date, dept, slots[..i + 1]) == Unreserved(res, date, dept, slots[..i]) + [slots[i]]
  {
    assert slots[..i + 1][..i] == slots[..i];
  }

  /** `getAvailableSlotsWithReservations`: the filter that pushes every held slot on the side. */
  method SlotsWithReservations(store: Store, date: string, dept: Department, q: SlotQuery) returns (view: SlotsView)
    ensures view == ViewOf(store.reservations, date, dept, q)
  {
    if IsSet(q.error) {
      return SlotsView([], [], [], q.error);
    }
    var reserved: seq<string> := [];
    var available: seq<string> := [];
    var i := 0;
    while i < |q.available|
      invariant 0 <= i <= |q.available|
      invariant available == Unreserved(store.reservations, date, dept, q.available[..i])
      invariant reserved == Reserved(store.reservations, date, dept, q.available[..i])
    {
      var slot := q.available[i];
      PartitionStep(store.reservations, date, dept, q.available, i);
      var reservation := store.GetTemporaryReservation(ReservationKey(date, Some(dept), slot));
      if reservation.Some? {
        reserved := reserved + [slot];
      } else {
        available := available + [slot];
      }
      i := i + 1;
    }
    assert q.available[..i] == q.available;
    view := SlotsView(available, q.booked, reserved, None);
  }

  // ---------------------------------------------------------------- date

  /**
   * The date step can offer slots: the typed date passes the date rules, the session
   * has a department, and the database answers without error with a slot that no
   * reservation holds.
   */
  predicate DateBookable(st: StoreState, user: string, text: string, today: CalDate, db: (Option<string>, Option<Department>) -> SlotQuery)
    requires ValidDate(today) && user in st.sessions
  {
    var v := Validation.ValidateAppointmentDate(text, today);
    var dept := st.sessions[user].selectedDepartment;
    v.ValidAppointmentDate? && v.formattedDate != "" && dept.Some? &&
    var q := db(Some(v.formattedDate), dept);
    !IsSet(q.error) && exists x :: x in q.available && SlotKey(v.formattedDate, dept.value, x) !in st.reservations
  }

  /**
   * `handleDateSelection`: a bookable date is stored and the step moves to the slot,
   * with the free slots shown; every other answer leaves the tables as they were.
   */
  function AfterDateSelection(st: StoreState, user: string, text: string, now: int, today: CalDate,
                              db: (Option<string>, Option<Department>) -> SlotQuery): (o: Outcome)
    requires ValidDate(today) && user in st.sessions
    ensures o.reply.ShowSlots? <==> DateBookable(st, user, text, today, db)
    ensures o.reply.ShowSlots? ==>
      var date := Validation.ValidateAppointmentDate(text, today).formattedDate;
      o.state == WithUpdates(st, user, Update(Some(WaitingForSlot), Some(date), None, None, None), now) &&
      o.reply.available == Unreserved(st.reservations, date, o.reply.shownDepartment, db(Some(date), Some(o.reply.shownDepartment)).available)
    ensures !o.reply.ShowSlots? ==> o.state == st && o.reply.ErrorNotice?
    ensures Validation.ValidateAppointmentDate(text, today).InvalidAppointmentDate? ==>
      o.reply == ErrorNotice(DateRejected(Validation.ValidateAppointmentDate(text, today).error))
    ensures Scoped(st, user, o)
  {
    match Validation.ValidateAppointmentDate(text, today)
    case InvalidAppointmentDate(error) => Outcome(st, ErrorNotice(DateRejected(error)))
    case ValidAppointmentDate(_, date) =>
      if date == "" then Outcome(st, ErrorNotice(DateMissing))
      else match st.sessions[user].selectedDepartment
      case None => Outcome(st, ErrorNotice(NoDepartment))
      case Some(dept) =>
        var q := db(Some(date), Some(dept));
        var view := ViewOf(st.reservations, date, dept, q);
        SlotsSplitByKey(st.reservations, date, dept, q.available);
        if IsSet(view.error) then Outcome(st, ErrorNotice(AvailabilityFailed(view.error.value)))
        else if |view.available| == 0 then
          assert view.available == [];
          Outcome(st, ErrorNotice(NoSlotsLeft))
        else
          assert view.available[0] in view.available;
          Outcome(WithUpdates(st, user, Update(Some(WaitingForSlot), Some(date), None, None, None), now),
                  ShowSlots(text, view.available, dept))
  }

  // ---------------------------------------------------------------- slot

  /** The reservation key of a slot for the session's date and department, as the template renders it. */
  function SessionSlotKey(s: Session, slot: string): string
  {
    ReservationKey(OptionText(s.selectedDate), s.selectedDepartment, slot)
  }

  /**
   * The slot step can reserve: the text reads as an offered time, the database lists it
   * as free for the session's date and department, and no other user holds its key.
   */
  predicate SlotReservable(st: StoreState, user: string, text: string, slots: seq<string>, q: SlotQuery)
    requires user in st.sessions
  {
    var p := TimeParsing.ParseTwoBranch(text);
    p.Some? && p.value in slots && !IsSet(q.error) && p.value in q.available
    && !ReservedByOther(st, SessionSlotKey(st.sessions[user], p.value), user)
  }

  /** What a reservable reply means: it parses to a clock text that reads back as itself, that
      the day offers and that no other user holds. */
  lemma SlotReservableMeaning(st: StoreState, user: string, text: string, slots: seq<string>, q: SlotQuery)
    requires user in st.sessions && SlotReservable(st, user, text, slots, q)
    ensures var slot := TimeParsing.ParseTwoBranch(text).value;
      TimeParsing.IsClockText(slot) && TimeParsing.ParseTwoBranch(slot) == Some(slot)
      && slot in slots && slot in q.available && !IsSet(q.error)
      && !ReservedByOther(st, SessionSlotKey(st.sessions[user], slot), user)
  {
    TimeParsing.ClockTextRereads(TimeParsing.ParseTwoBranch(text).value);
  }

  /**
   * `handleSlotSelection`: a reservable slot is reserved for the user and stored in the
   * session with the reservation time, and the step moves to the details; otherwise
   * nothing changes. `q` is the database's answer for the session's date and department.
   */
  function AfterSlotSelection(st: StoreState, user: string, text: string, now: int, slots: seq<string>, q: SlotQuery): (o: Outcome)
    requires user in st.sessions
    ensures o.reply.AskDetails? <==> SlotReservable(st, user, text, slots, q)
    ensures o.reply.AskDetails? ==>
      var slot := TimeParsing.ParseTwoBranch(text).value;
      o.reply.slot == slot &&
      o.state == WithUpdates(WithReservation(st, SessionSlotKey(st.sessions[user], slot), user, now), user,
                             Update(Some(WaitingForDetails), None, Some(slot), None, Some(now)), now)
    ensures !o.reply.AskDetails? ==> o.state == st && o.reply.ErrorNotice?
    ensures Scoped(st, user, o)
  {
    match TimeParsing.ParseTwoBranch(text)
    case None => Outcome(st, ErrorNotice(TimeUnreadable(text)))
    case Some(slot) =>
      if slot !in slots then Outcome(st, ErrorNotice(TimeNotOffered(text, slot)))
      else if IsSet(q.error) then Outcome(st, ErrorNotice(AvailabilityCheckFailed))
      else if slot !in q.available then Outcome(st, ErrorNotice(SlotTaken(slot)))
      else
        var s := st.sessions[user];
        var key := SessionSlotKey(s, slot);
        if ReservedByOther(st, key, user) then Outcome(st, ErrorNotice(SlotHeld(slot)))
        else
          var reserved := WithReservation(st, key, user, now);
          Outcome(WithUpdates(reserved, user, Update(Some(WaitingForDetails), None, Some(slot), None, Some(now)), now),
                  AskDetails(s.selectedDate, slot, s.selectedDepartment))
  }

  // ---------------------------------------------------------------- details

  /** `lines.find(line => line.toLowerCase().includes(mark))`. */
  function FindLine(lines: seq<string>, mark: string): (r: Option<string>)
    ensures r.Some? ==> r.value in lines && Contains(ToLower(r.value), mark)
    ensures r.None? ==> forall l :: l in lines ==> !Contains(ToLower(l), mark)
    ensures r.Some? ==>
      exists k :: 0 <= k < |lines| && lines[k] == r.value && forall j :: 0 <= j < k ==> !Contains(ToLower(lines[j]), mark)
  {
    if lines == [] then None
    else if Contains(ToLower(lines[0]), mark) then Some(lines[0])
    else
      var r := FindLine(lines[1..], mark);
      FirstLineShift(lines, mark, r);
      r
  }

  /** A line that comes first in the tail, after a non-matching head, comes first in the whole list. */
  lemma FirstLineShift(lines: seq<string>, mark: string, r: Option<string>)
    requires lines != [] && !Contains(ToLower(lines[0]), mark)
    requires r.Some? ==>
      exists k :: 0 <= k < |lines| - 1 && lines[1..][k] == r.value && forall j :: 0 <= j < k ==> !Contains(ToLower(lines[1..][j]), mark)
    ensures r.Some? ==>
      exists k :: 0 <= k < |lines| && lines[k] == r.value && forall j :: 0 <= j < k ==> !Contains(ToLower(lines[j]), mark)
  {
    if r.Some? {
      var k :| 0 <= k < |lines| - 1 && lines[1..][k] == r.value &&
        forall j :: 0 <= j < k ==> !Contains(ToLower(lines[1..][j]), mark);
      assert lines[k + 1] == r.value;
      forall j | 0 <= j < k + 1
        ensures !Contains(ToLower(lines[j]), mark)
      {
        if j > 0 {
          assert lines[j] == lines[1..][j - 1];
        }
      }
    }
  }

  /** `line.split(':')[1]?.trim() || ''`: the trimmed text between the first and the second colon. */
  function FieldValue(line: string): string
  {
    var parts := Split(line, ':');
    if |parts| >= 2 then Trim(parts[1]) else ""
  }

  function TrimAll(parts: seq<string>): (r: seq<string>)
    ensures |r| == |parts| && forall i :: 0 <= i < |parts| ==> r[i] == Trim(parts[i])
  {
    seq(|parts|, i requires 0 <= i < |parts| => Trim(parts[i]))
  }

  /**
   * The name and phone of a details message: with a line break, the values of the first
   * lines labelled `name:` and `phone:`; otherwise, with a comma, the first two trimmed
   * comma-separated parts; `None` is the format error the handler throws and catches.
   */
  function ParseDetails(text: string): (r: Option<(string, string)>)
    ensures '\n' !in text && ',' !in text ==> r.None?
  {
    if '\n' in text then
      var lines := Split(text, '\n');
      var nameLine := FindLine(lines, "name:");
      var phoneLine := FindLine(lines, "phone:");
      if IsSet(nameLine) && IsSet(phoneLine) then Some((FieldValue(nameLine.value), FieldValue(phoneLine.value)))
      else None
    else if ',' in text then
      var parts := TrimAll(Split(text, ','));
      if |parts| >= 2 then Some((parts[0], parts[1])) else None
    else None
  }

  /** The value after `mark:` on a line is the trimmed text up to the next colon. */
  lemma {:induction false} FieldValueAfterLabel(mark: string, value: string)
    requires ':' !in mark
    ensures FieldValue(mark + ":" + value) == Trim(Split(value, ':')[0])
  {
    SplitAt(mark, ':', value);
  }

  /** Comma form: the trimmed text before the first comma and the trimmed text up to the next one. */
  lemma {:induction false} CommaDetails(name: string, rest: string)
    requires ',' !in name && '\n' !in name && '\n' !in rest
    ensures ParseDetails(name + "," + rest) == Some((Trim(name), Trim(Split(rest, ',')[0])))
  {
    var text := name + [','] + rest;
    assert name + "," + rest == text;
    assert '\n' !in text;
    assert ',' in text by { assert text[|name|] == ','; }
    SplitAt(name, ',', rest);
    var parts := Split(text, ',');
    assert parts[0] == name && parts[1] == Split(rest, ',')[0] && |parts| >= 2;
    var trimmed := TrimAll(parts);
    assert trimmed[0] == Trim(name) && trimmed[1] == Trim(Split(rest, ',')[0]);
  }

  /**
   * Line form: when the first line carries the name mark and not the phone mark and
   * the second carries the phone mark, the two labelled values are read.
   */
  lemma {:induction false} LineDetails(nameLine: string, phoneLine: string)
    requires '\n' !in nameLine && '\n' !in phoneLine && nameLine != [] && phoneLine != []
    requires Contains(ToLower(nameLine), "name:") && !Contains(ToLower(nameLine), "phone:")
    requires Contains(ToLower(phoneLine), "phone:")
    ensures ParseDetails(nameLine + "\n" + phoneLine) == Some((FieldValue(nameLine), FieldValue(phoneLine)))
  {
    var text := nameLine + "\n" + phoneLine;
    assert text[|nameLine|] == '\n';
    SplitAt(nameLine, '\n', phoneLine);
    assert Split(phoneLine, '\n') == [phoneLine];
    var lines := Split(text, '\n');
    assert lines == [nameLine, phoneLine];
    assert lines[1..] == [phoneLine];
  }

  /**
   * A name of JavaScript length at least two and a phone of length at least ten: what the
   * handler accepts. The lengths are UTF-16 code units, as `.length` counts them.
   */
  predicate DetailsAccepted(d: Option<(string, string)>)
  {
    d.Some? && Utf16Length(d.value.0) >= 2 && Utf16Length(d.value.1) >= 10
  }

  /** A one-character name beyond U+FFFF has JavaScript length 2, so it passes the name check. */
  lemma AstralNamePasses(c: char, phone: string)
    requires c as int > 0xFFFF && Utf16Length(phone) >= 10
    ensures DetailsAccepted(Some(([c], phone)))
  {
    Utf16LengthAstral(c);
  }

  /** The session holds everything an appointment needs. */
  predicate Complete(s: Session)
  {
    IsSet(s.selectedDate) && IsSet(s.selectedSlot) && s.selectedDepartment.Some? && s.tempData.Some?
  }

  function DataOf(s: Session): AppointmentData
    requires Complete(s)
  {
    AppointmentData(s.tempData.value.patientName, s.tempData.value.phoneNumber, s.selectedDepartment.value,
                    s.selectedDate.value, s.selectedSlot.value)
  }

  /**
   * `createAppointment`: when the session is complete and the database accepts it, the
   * session's reservation and the session go; on any failure the session stays and only
   * the reservation it holds goes, when it has a department too.
   */
  function AfterCreateAppointment(st: StoreState, user: string, create: AppointmentData -> bool): (o: Outcome)
    requires user in st.sessions
    ensures o.reply.Confirmed? <==> Complete(st.sessions[user]) && create(DataOf(st.sessions[user]))
    ensures o.reply.Confirmed? ==>
      o.reply.data == DataOf(st.sessions[user]) &&
      o.state == WithoutSession(WithoutReservation(st, HeldKey(st.sessions[user]).value), user)
    ensures !o.reply.Confirmed? ==> o.reply == ErrorNotice(AppointmentFailed) && o.state.sessions == st.sessions
    ensures !o.reply.Confirmed? ==>
      o.state.reservations ==
        if HeldKey(st.sessions[user]).Some? && st.sessions[user].selectedDepartment.Some?
        then st.reservations - {HeldKey(st.sessions[user]).value}
        else st.reservations
    ensures Scoped(st, user, o)
  {
    var s := st.sessions[user];
    if Complete(s) && create(DataOf(s)) then
      var key := ReservationKey(s.selectedDate.value, s.selectedDepartment, s.selectedSlot.value);
      Outcome(WithoutSession(WithoutReservation(st, key), user), Confirmed(DataOf(s)))
    else if IsSet(s.selectedDate) && IsSet(s.selectedSlot) && s.selectedDepartment.Some? then
      var key := ReservationKey(s.selectedDate.value, s.selectedDepartment, s.selectedSlot.value);
      Outcome(WithoutReservation(st, key), ErrorNotice(AppointmentFailed))
    else Outcome(st, ErrorNotice(AppointmentFailed))
  }

  /** The update that stores the patient's details in the session. */
  function DetailsUpdate(s: Session, name: string, phone: string): Update
  {
    Update(None, None, None, Some(TempData(Some(name), Some(phone), s.selectedDepartment)), None)
  }

  /**
   * `handlePatientDetails`: accepted details are stored and the appointment is created
   * from the session; unreadable or too short details change nothing.
   */
  function AfterPatientDetails(st: StoreState, user: string, text: string, now: int, create: AppointmentData -> bool): (o: Outcome)
    requires user in st.sessions
    ensures !DetailsAccepted(ParseDetails(text)) ==> o.state == st && o.reply.ErrorNotice? && o.reply.problem in {DetailsFormat, NameTooShort, PhoneTooShort}
    ensures DetailsAccepted(ParseDetails(text)) ==>
      var d := ParseDetails(text).value;
      var stored := WithUpdates(st, user, DetailsUpdate(st.sessions[user], d.0, d.1), now);
      stored.sessions[user].tempData == Some(TempData(Some(d.0), Some(d.1), st.sessions[user].selectedDepartment)) &&
      o == AfterCreateAppointment(stored, user, create)
    ensures Scoped(st, user, o)
  {
    match ParseDetails(text)
    case None => Outcome(st, ErrorNotice(DetailsFormat))
    case Some((name, phone)) =>
      if Utf16Length(name) < 2 then Outcome(st, ErrorNotice(NameTooShort))
      else if Utf16Length(phone) < 10 then Outcome(st, ErrorNotice(PhoneTooShort))
      else AfterCreateAppointment(WithUpdates(st, user, DetailsUpdate(st.sessions[user], name, phone), now), user, create)
  }

  // ---------------------------------------------------------------- display helpers

  /**
   * `formatTimeTo12Hour`: the hour before the first colon read by `parseInt`, shown on
   * the 12-hour clock, the minutes (up to the second colon) copied; `None` from
   * `parseInt` is `NaN`, which fails every comparison.
   */
  function FormatTimeTo12Hour(time: string): (r: string)
    ensures ':' !in time ==> r == time
  {
    if ':' in time then
      var parts := Split(time, ':');
      var minutes := if |parts| >= 2 then parts[1] else "undefined";
      match ParseInt(parts[0])
      case None => "NaN:" + minutes + " PM"
      case Some(hour) =>
        if hour == 0 then "12:" + minutes + " AM"
        else if hour < 12 then IntToString(hour) + ":" + minutes + " AM"
        else if hour == 12 then "12:" + minutes + " PM"
        else IntToString(hour - 12) + ":" + minutes + " PM"
    else time
  }

  /** `formatTimeSlotsTo12Hour`. */
  function FormatTimeSlotsTo12Hour(slots: seq<string>): (r: seq<string>)
    ensures |r| == |slots| && forall i :: 0 <= i < |slots| ==> r[i] == FormatTimeTo12Hour(slots[i])
  {
    seq(|slots|, i requires 0 <= i < |slots| => FormatTimeTo12Hour(slots[i]))
  }

  /**
   * An `HH:MM` slot on the 12-hour clock: midnight's hour reads 12 AM, morning hours
   * keep their number (without the leading zero) before AM, noon reads 12 PM, and
   * afternoon hours lose twelve before PM; the minutes are kept as they are.
   */
  lemma {:induction false} TwelveHourClock(h: nat, m: nat)
    requires h <= 23 && m <= 59
    ensures FormatTimeTo12Hour(TimeParsing.ClockText(h, m)) ==
      if h == 0 then "12:" + Pad2(m) + " AM"
      else if h < 12 then NatToString(h) + ":" + Pad2(m) + " AM"
      else if h == 12 then "12:" + Pad2(m) + " PM"
      else NatToString(h - 12) + ":" + Pad2(m) + " PM"
  {
    ClockTextParts(h, m);
    FormatFromParts(TimeParsing.ClockText(h, m), Pad2(h), Pad2(m), h);
  }

  /** A time with two colon-free parts whose first reads as an hour is shown by that hour. */
  lemma FormatFromParts(time: string, hh: string, mm: string, h: nat)
    requires ':' in time && Split(time, ':') == [hh, mm] && ParseInt(hh) == Some(h)
    ensures FormatTimeTo12Hour(time) ==
      if h == 0 then "12:" + mm + " AM"
      else if h < 12 then NatToString(h) + ":" + mm + " AM"
      else if h == 12 then "12:" + mm + " PM"
      else NatToString(h - 12) + ":" + mm + " PM"
  {
  }

  /** A clock text splits at its colon into the two padded fields, the first reading back as the hour. */
  lemma ClockTextParts(h: nat, m: nat)
    requires h <= 23 && m <= 59
    ensures ':' in TimeParsing.ClockText(h, m)
    ensures Split(TimeParsing.ClockText(h, m), ':') == [Pad2(h), Pad2(m)]
    ensures ParseInt(Pad2(h)) == Some(h)
  {
    var hh, mm := Pad2(h), Pad2(m);
    assert TimeParsing.ClockText(h, m) == hh + [':'] + mm;
    DigitsExclude(hh, ':');
    DigitsExclude(mm, ':');
    SplitTwo(hh, mm, ':');
    HourFieldReads(h);
  }

  lemma HourFieldReads(h: nat)
    requires h <= 23
    ensures ParseInt(Pad2(h)) == Some(h)
  {
    ParseIntDigits(Pad2(h));
  }

  /** `getDisplayDepartmentName`: Ortho is shown as Orthopedics, ENT as itself. */
  function DisplayDepartmentName(d: Department): (r: string)
    ensures d == Ortho <==> r == "Orthopedics"
    ensures r == DepartmentText(Some(d)) <==> d == ENT
  {
    if d == Ortho then "Orthopedics" else DepartmentText(Some(d))
  }

  // ---------------------------------------------------------------- the handlers as methods

  method HandleBookingConfirmation(store: Store, user: string, text: string, now: int) returns (reply: Reply)
    modifies store
    ensures Outcome(store.State(), reply) == AfterBookingConfirmation(old(store.State()), user, text, now)
  {
    var response := Trim(ToLower(text));
    if response == "yes" || response == "continue" || response == "ok" || response == "proceed" {
      store.UpdateUserStep(user, WaitingForDepartment, now);
      reply := AskDepartment;
    } else if response == "cancel" || response == "no" || response == "stop" {
      store.DeleteUserState(user);
      reply := CancellationNotice;
    } else {
      reply := ErrorNotice(ConfirmationExpected);
    }
  }

  /** The department is written into the stored session object itself, then the step moves on. */
  method HandleDepartmentSelection(store: Store, user: string, text: string, now: int) returns (reply: Reply)
    requires user in store.sessions
    modifies store
    ensures Outcome(store.State(), reply) == AfterDepartmentSelection(old(store.State()), user, text, now)
  {
    var department := Trim(text);
    var choice: Option<Department>;
    if department == "1" || department == "ortho" {
      choice := Some(Ortho);
    } else if department == "2" || department == "ent" {
      choice := Some(ENT);
    } else {
      return ErrorNotice(InvalidDepartment);
    }
    var userState := store.GetUserState(user);
    store.SetUserState(user, userState.(selectedDepartment := choice));
    store.UpdateUserStep(user, WaitingForDate, now);
    reply := AskDate(choice);
  }

  method HandleDateSelection(store: Store, user: string, text: string, now: int, today: CalDate,
                             db: (Option<string>, Option<Department>) -> SlotQuery) returns (reply: Reply)
    requires ValidDate(today) && user in store.sessions
    modifies store
    ensures Outcome(store.State(), reply) == AfterDateSelection(old(store.State()), user, text, now, today, db)
  {
    var dateValidation := Validation.ValidateAppointmentDate(text, today);
    if dateValidation.InvalidAppointmentDate? {
      return ErrorNotice(DateRejected(dateValidation.error));
    }
    var formattedDate := dateValidation.formattedDate;
    if formattedDate == "" {
      return ErrorNotice(DateMissing);
    }
    var userState := store.GetUserState(user);
    if userState.selectedDepartment.None? {
      return ErrorNotice(NoDepartment);
    }
    var department := userState.selectedDepartment.value;
    var availability := SlotsWithReservations(store, formattedDate, department, db(Some(formattedDate), Some(department)));
    if IsSet(availability.error) {
      return ErrorNotice(AvailabilityFailed(availability.error.value));
    }
    if |availability.available| == 0 {
      return ErrorNotice(NoSlotsLeft);
    }
    store.UpdateUserState(user, Update(Some(WaitingForSlot), Some(formattedDate), None, None, None), now);
    reply := ShowSlots(text, availability.available, department);
  }

  method HandleSlotSelection(store: Store, user: string, text: string, now: int, slots: seq<string>,
                             db: (Option<string>, Option<Department>) -> SlotQuery) returns (reply: Reply)
    requires user in store.sessions
    modifies store
    ensures Outcome(store.State(), reply) ==
      AfterSlotSelection(old(store.State()), user, text, now, slots,
                         db(old(store.sessions)[user].selectedDate, old(store.sessions)[user].selectedDepartment))
  {
    var parsedSlot := TimeParsing.ParseTwoBranch(text);
    if parsedSlot.None? {
      return ErrorNotice(TimeUnreadable(text));
    }
    var slot := parsedSlot.value;
    if slot !in slots {
      return ErrorNotice(TimeNotOffered(text, slot));
    }
    var userState := store.GetUserState(user);
    var currentAvailability := db(userState.selectedDate, userState.selectedDepartment);
    if IsSet(currentAvailability.error) {
      return ErrorNotice(AvailabilityCheckFailed);
    }
    if slot !in currentAvailability.available {
      return ErrorNotice(SlotTaken(slot));
    }
    var reservationKey := ReservationKey(OptionText(userState.selectedDate), userState.selectedDepartment, slot);
    if store.IsSlotReservedByOther(reservationKey, user) {
      return ErrorNotice(SlotHeld(slot));
    }
    store.AddTemporaryReservation(reservationKey, user, now);
    store.UpdateUserState(user, Update(Some(WaitingForDetails), None, Some(slot), None, Some(now)), now);
    reply := AskDetails(userState.selectedDate, slot, userState.selectedDepartment);
  }

  method HandlePatientDetails(store: Store, user: string, text: string, now: int, create: AppointmentData -> bool)
    returns (reply: Reply)
    requires user in store.sessions
    modifies store
    ensures Outcome(store.State(), reply) == AfterPatientDetails(old(store.State()), user, text, now, create)
  {
    var details := ParseDetails(text);
    if details.None? {
      return ErrorNotice(DetailsFormat);
    }
    var (patientName, phoneNumber) := details.value;
    if Utf16Length(patientName) < 2 {
      return ErrorNotice(NameTooShort);
    }
    if Utf16Length(phoneNumber) < 10 {
      return ErrorNotice(PhoneTooShort);
    }
    var userState := store.GetUserState(user);
    store.UpdateUserState(user, DetailsUpdate(userState, patientName, phoneNumber), now);
    reply := CreateAppointment(store, user, create);
  }

  method CreateAppointment(store: Store, user: string, create: AppointmentData -> bool) returns (reply: Reply)
    requires user in store.sessions
    modifies store
    ensures Outcome(store.State(), reply) == AfterCreateAppointment(old(store.State()), user, create)
  {
    var userState := store.GetUserState(user);
    if Complete(userState) && create(DataOf(userState)) {
      var reservationKey := ReservationKey(userState.selectedDate.value, userState.selectedDepartment, userState.selectedSlot.value);
      store.DeleteTemporaryReservation(reservationKey);
      store.DeleteUserState(user);
      reply := Confirmed(DataOf(userState));
    } else {
      if IsSet(userState.selectedDate) && IsSet(userState.selectedSlot) && userState.selectedDepartment.Some? {
        var reservationKey := ReservationKey(userState.selectedDate.value, userState.selectedDepartment, userState.selectedSlot.value);
        store.DeleteTemporaryReservation(reservationKey);
      }
      reply := ErrorNotice(AppointmentFailed);
    }
  }
}
