/**
 * The in-process session store of the booking chat: one table of per-user booking
 * sessions and one table of temporary slot reservations keyed by
 * `"<date>-<department>-<slot>"`, with the periodic sweep that evicts both by age.
 *
 * `StoreState` is the abstract value of the two tables. Every operation is a pure
 * function on it (`WithStep`, `Swept`, ...) and a method of the class `Store` whose
 * `ensures` ties the new tables to that function of the old ones. The clock
 * (`Date.now()`) is the parameter `now`, in milliseconds.
 */
module UserState {
  import opened Wrappers

  datatype Step =
    | Idle
    | WaitingForBookingConfirmation
    | WaitingForDepartment
    | WaitingForDate
    | WaitingForSlot
    | WaitingForDetails

  datatype Department = Ortho | ENT

  /** The patient details collected before an appointment is created. */
  datatype TempData = TempData(patientName: Option<string>, phoneNumber: Option<string>, department: Option<Department>)

  /** `UserBookingState`: `None` is a field that is `undefined`. */
  datatype Session = Session(
    step: Step,
    selectedDepartment: Option<Department>,
    selectedDate: Option<string>,
    selectedSlot: Option<string>,
    tempData: Option<TempData>,
    reservationTime: Option<int>,
    lastActivityTime: Option<int>)

  /** `{ userId, timestamp }`. */
  datatype Reservation = Reservation(userId: string, timestamp: int)

  /** The two tables. */
  datatype StoreState = StoreState(sessions: map<string, Session>, reservations: map<string, Reservation>)

  /** `{ step: 'idle' }`, the state of a user the store does not know. */
  const IdleSession := Session(Idle, None, None, None, None, None, None)

  /** `RESERVATION_TIMEOUT`: five minutes. */
  const ReservationTimeout := 5 * 60 * 1000
  /** A session whose reservation is older than this is evicted. */
  const SessionReservationTimeout := 30 * 60 * 1000
  /** A session in a non-idle step without a reservation is evicted after this much inactivity. */
  const StaleSessionTimeout := 10 * 60 * 1000

  /** A string field that JavaScript treats as true: present and not empty. */
  predicate IsSet(o: Option<string>)
  {
    o.Some? && o.value != ""
  }

  /** A time field that JavaScript treats as true: present and not zero. */
  predicate IsSetTime(o: Option<int>)
  {
    o.Some? && o.value != 0
  }

  /** How `${department}` renders in a template: an absent department reads "undefined". */
  function DepartmentText(d: Option<Department>): string
  {
    match d
    case Some(Ortho) => "Ortho"
    case Some(ENT) => "ENT"
    case None => "undefined"
  }

  /** `` `${date}-${department}-${slot}` ``, the key of a temporary reservation. */
  function ReservationKey(date: string, department: Option<Department>, slot: string): string
  {
    date + "-" + DepartmentText(department) + "-" + slot
  }

  /** The reservation key a session holds, when it has both a date and a slot. */
  function HeldKey(s: Session): (k: Option<string>)
    ensures k.Some? <==> IsSet(s.selectedDate) && IsSet(s.selectedSlot)
    ensures k.Some? ==> k.value == ReservationKey(s.selectedDate.value, s.selectedDepartment, s.selectedSlot.value)
  {
    if IsSet(s.selectedDate) && IsSet(s.selectedSlot) then
      Some(ReservationKey(s.selectedDate.value, s.selectedDepartment, s.selectedSlot.value))
    else None
  }

  /** `getUserState`: the stored session, or a fresh idle one that is not stored. */
  function Lookup(st: StoreState, user: string): (s: Session)
    ensures user in st.sessions ==> s == st.sessions[user]
    ensures user !in st.sessions ==> s == IdleSession
  {
    if user in st.sessions then st.sessions[user] else IdleSession
  }

  /** `setUserState`. */
  function WithSession(st: StoreState, user: string, s: Session): (r: StoreState)
    ensures r.sessions.Keys == st.sessions.Keys + {user} && r.sessions[user] == s
    ensures forall u :: u in st.sessions && u != user ==> r.sessions[u] == st.sessions[u]
    ensures r.reservations == st.reservations
  {
    st.(sessions := st.sessions[user := s])
  }

  /** `deleteUserState`. */
  function WithoutSession(st: StoreState, user: string): (r: StoreState)
    ensures r.sessions.Keys == st.sessions.Keys - {user}
    ensures forall u :: u in r.sessions ==> r.sessions[u] == st.sessions[u]
    ensures r.reservations == st.reservations
  {
    st.(sessions := st.sessions - {user})
  }

  /** `updateUserStep`: a known user gets the step and `lastActivityTime = now`; an unknown user is ignored. */
  function WithStep(st: StoreState, user: string, step: Step, now: int): (r: StoreState)
    ensures r.sessions.Keys == st.sessions.Keys && r.reservations == st.reservations
    ensures forall u :: u in st.sessions && u != user ==> r.sessions[u] == st.sessions[u]
    ensures user in st.sessions ==> r.sessions[user] == st.sessions[user].(step := step, lastActivityTime := Some(now))
    ensures user !in st.sessions ==> r == st
  {
    if user in st.sessions then
      st.(sessions := st.sessions[user := st.sessions[user].(step := step, lastActivityTime := Some(now))])
    else st
  }

  /** The fields of `Partial<UserBookingState>` that the updates in the code set; `None` is a field left out. */
  datatype Update = Update(
    step: Option<Step>,
    selectedDate: Option<string>,
    selectedSlot: Option<string>,
    tempData: Option<TempData>,
    reservationTime: Option<int>)

  function Or<T>(o: Option<T>, fallback: Option<T>): Option<T>
  {
    if o.Some? then o else fallback
  }

  /** `Object.assign(state, updates)`: every field the update carries overwrites the session's. */
  function Applied(s: Session, u: Update): (r: Session)
    ensures u.step.Some? ==> r.step == u.step.value
    ensures u.step.None? ==> r.step == s.step
    ensures r.selectedDate == (if u.selectedDate.Some? then u.selectedDate else s.selectedDate)
    ensures r.selectedSlot == (if u.selectedSlot.Some? then u.selectedSlot else s.selectedSlot)
    ensures r.tempData == (if u.tempData.Some? then u.tempData else s.tempData)
    ensures r.reservationTime == (if u.reservationTime.Some? then u.reservationTime else s.reservationTime)
    ensures r.selectedDepartment == s.selectedDepartment && r.lastActivityTime == s.lastActivityTime
  {
    s.(step := u.step.GetOr(s.step),
       selectedDate := Or(u.selectedDate, s.selectedDate),
       selectedSlot := Or(u.selectedSlot, s.selectedSlot),
       tempData := Or(u.tempData, s.tempData),
       reservationTime := Or(u.reservationTime, s.reservationTime))
  }

  /** `updateUserState`: a known user gets the updates and `lastActivityTime = now`; an unknown user is ignored. */
  function WithUpdates(st: StoreState, user: string, u: Update, now: int): (r: StoreState)
    ensures r.sessions.Keys == st.sessions.Keys && r.reservations == st.reservations
    ensures forall v :: v in st.sessions && v != user ==> r.sessions[v] == st.sessions[v]
    ensures user in st.sessions ==> r.sessions[user] == Applied(st.sessions[user], u).(lastActivityTime := Some(now))
    ensures user !in st.sessions ==> r == st
  {
    if user in st.sessions then
      st.(sessions := st.sessions[user := Applied(st.sessions[user], u).(lastActivityTime := Some(now))])
    else st
  }

  /** `addTemporaryReservation`: the key is (re)assigned to the user, stamped `now`, whoever held it. */
  function WithReservation(st: StoreState, key: string, user: string, now: int): (r: StoreState)
    ensures r.sessions == st.sessions
    ensures r.reservations.Keys == st.reservations.Keys + {key}
    ensures r.reservations[key] == Reservation(user, now)
    ensures forall k :: k in st.reservations && k != key ==> r.reservations[k] == st.reservations[k]
  {
    st.(reservations := st.reservations[key := Reservation(user, now)])
  }

  /** `getTemporaryReservation`. */
  function FindReservation(st: StoreState, key: string): (r: Option<Reservation>)
    ensures r.Some? <==> key in st.reservations
    ensures r.Some? ==> r.value == st.reservations[key]
  {
    if key in st.reservations then Some(st.reservations[key]) else None
  }

  /** `deleteTemporaryReservation`. */
  function WithoutReservation(st: StoreState, key: string): (r: StoreState)
    ensures r.sessions == st.sessions
    ensures r.reservations.Keys == st.reservations.Keys - {key}
    ensures forall k :: k in r.reservations ==> r.reservations[k] == st.reservations[k]
  {
    st.(reservations := st.reservations - {key})
  }

  /** `isSlotReservedByOther`: some reservation holds the key and it is not the user's. */
  predicate ReservedByOther(st: StoreState, key: string, user: string)
  {
    key in st.reservations && st.reservations[key].userId != user
  }

  /** `clearExpiredReservation`: drop the reservation a known user's session holds; the session stays. */
  function ExpiredReservationCleared(st: StoreState, user: string): (r: StoreState)
    ensures r.sessions == st.sessions
    ensures user in st.sessions && HeldKey(st.sessions[user]).Some? ==>
      r == WithoutReservation(st, HeldKey(st.sessions[user]).value)
    ensures !(user in st.sessions && HeldKey(st.sessions[user]).Some?) ==> r == st
  {
    if user in st.sessions && HeldKey(st.sessions[user]).Some? then
      WithoutReservation(st, HeldKey(st.sessions[user]).value)
    else st
  }

  /* The sweep. */

  /** A temporary reservation older than `RESERVATION_TIMEOUT`. */
  predicate ReservationStale(r: Reservation, now: int)
  {
    now - r.timestamp > ReservationTimeout
  }

  /** A session whose reservation was made more than 30 minutes ago. */
  predicate ReservationExpired(s: Session, now: int)
  {
    IsSetTime(s.reservationTime) && now - s.reservationTime.value > SessionReservationTimeout
  }

  /** `now - (lastActivityTime || now)`. */
  function InactiveFor(s: Session, now: int): int
  {
    now - (if IsSetTime(s.lastActivityTime) then s.lastActivityTime.value else now)
  }

  /** A session without a reservation, in a non-idle step, inactive for more than 10 minutes. */
  predicate SessionStale(s: Session, now: int)
  {
    !IsSetTime(s.reservationTime) && s.step != Idle && InactiveFor(s, now) > StaleSessionTimeout
  }

  predicate Evicted(s: Session, now: int)
  {
    ReservationExpired(s, now) || SessionStale(s, now)
  }

  /** The keys of the stale reservations. */
  function StaleKeys(res: map<string, Reservation>, now: int): set<string>
  {
    set k | k in res && ReservationStale(res[k], now)
  }

  /** Of the given users, those the sweep evicts. */
  function EvictedUsers(sessions: map<string, Session>, users: set<string>, now: int): set<string>
  {
    set u | u in users && u in sessions && Evicted(sessions[u], now)
  }

  /** Of the given users, the reservation keys held by sessions whose reservation expired. */
  function ReleasedKeys(sessions: map<string, Session>, users: set<string>, now: int): set<string>
  {
    set u | u in users && u in sessions && ReservationExpired(sessions[u], now) && HeldKey(sessions[u]).Some?
      :: HeldKey(sessions[u]).value
  }

  /**
   * The sweep: stale reservations go, then every evicted session goes, taking the
   * reservation key it holds with it when its own reservation expired.
   */
  function Swept(st: StoreState, now: int): StoreState
  {
    StoreState(
      st.sessions - EvictedUsers(st.sessions, st.sessions.Keys, now),
      st.reservations - StaleKeys(st.reservations, now) - ReleasedKeys(st.sessions, st.sessions.Keys, now))
  }

  class Store {
    var sessions: map<string, Session>
    var reservations: map<string, Reservation>

    function State(): StoreState
      reads this
    {
      StoreState(sessions, reservations)
    }

    constructor ()
      ensures State() == StoreState(map[], map[])
    {
      sessions := map[];
      reservations := map[];
    }

    /** `getUserState`: reads and does not store. */
    function GetUserState(user: string): (s: Session)
      reads this
      ensures user in sessions ==> s == sessions[user]
      ensures user !in sessions ==> s == IdleSession
    {
      Lookup(State(), user)
    }

    method SetUserState(user: string, s: Session)
      modifies this
      ensures State() == WithSession(old(State()), user, s)
    {
      sessions := sessions[user := s];
    }

    method DeleteUserState(user: string)
      modifies this
      ensures State() == WithoutSession(old(State()), user)
    {
      sessions := sessions - {user};
    }

    method UpdateUserStep(user: string, step: Step, now: int)
      modifies this
      ensures State() == WithStep(old(State()), user, step, now)
    {
      if user in sessions {
        var s := sessions[user];
        sessions := sessions[user := s.(step := step, lastActivityTime := Some(now))];
      }
    }

    method UpdateUserState(user: string, u: Update, now: int)
      modifies this
      ensures State() == WithUpdates(old(State()), user, u, now)
    {
      if user in sessions {
        var s := Applied(sessions[user], u);
        sessions := sessions[user := s.(lastActivityTime := Some(now))];
      }
    }

    method AddTemporaryReservation(key: string, user: string, now: int)
      modifies this
      ensures State() == WithReservation(old(State()), key, user, now)
    {
      reservations := reservations[key := Reservation(user, now)];
    }

    function GetTemporaryReservation(key: string): (r: Option<Reservation>)
      reads this
      ensures r.Some? <==> key in reservations
      ensures r.Some? ==> r.value == reservations[key]
    {
      FindReservation(State(), key)
    }

    method DeleteTemporaryReservation(key: string)
      modifies this
      ensures State() == WithoutReservation(old(State()), key)
    {
      reservations := reservations - {key};
    }

    function IsSlotReservedByOther(key: string, user: string): (b: bool)
      reads this
      ensures b <==> key in reservations && reservations[key].userId != user
    {
      ReservedByOther(State(), key, user)
    }

    method ClearExpiredReservation(user: string)
      modifies this
      ensures State() == ExpiredReservationCleared(old(State()), user)
    {
      if user in sessions {
        var s := sessions[user];
        if IsSet(s.selectedDate) && IsSet(s.selectedSlot) {
          var key := ReservationKey(s.selectedDate.value, s.selectedDepartment, s.selectedSlot.value);
          reservations := reservations - {key};
        }
      }
    }

    /** One run of the timer body: first over a snapshot of the reservations, then over one of the sessions. */
    method Sweep(now: int)
      modifies this
      ensures State() == Swept(old(State()), now)
    {
      SweepReservations(now);
      SweepSessions(now, old(State()));
    }

    /** The first loop of the timer body: drop every reservation older than the timeout. */
    method SweepReservations(now: int)
      modifies this
      ensures sessions == old(sessions)
      ensures reservations == old(reservations) - StaleKeys(old(reservations), now)
    {
      var pending := reservations.Keys;
      while pending != {}
        invariant pending <= old(reservations).Keys
        invariant sessions == old(sessions)
        invariant reservations == old(reservations) - (StaleKeys(old(reservations), now) - pending)
        decreases |pending|
      {
        var key :| key in pending;
        StaleStep(old(reservations), pending, key, now);
        if now - reservations[key].timestamp > ReservationTimeout {
          reservations := reservations - {key};
        }
        pending := pending - {key};
      }
    }

    /** The second loop of the timer body, over the sessions of `st0`, the tables before the sweep. */
    method SweepSessions(now: int, ghost st0: StoreState)
      requires sessions == st0.sessions
      modifies this
      ensures sessions == st0.sessions - EvictedUsers(st0.sessions, st0.sessions.Keys, now)
      ensures reservations == old(reservations) - ReleasedKeys(st0.sessions, st0.sessions.Keys, now)
    {
      var users := sessions.Keys;
      ghost var done: set<string> := {};
      while users != {}
        invariant done + users == st0.sessions.Keys && done !! users
        invariant sessions == st0.sessions - EvictedUsers(st0.sessions, done, now)
        invariant reservations == old(reservations) - ReleasedKeys(st0.sessions, done, now)
        decreases |users|
      {
        var user :| user in users;
        ghost var s := st0.sessions[user];
        ghost var evicted := EvictedUsers(st0.sessions, done, now);
        ghost var released := ReleasedKeys(st0.sessions, done, now);
        SweptOneMore(st0.sessions, done, user, now);
        assert user !in evicted;
        assert sessions[user] == s;
        SweepSession(user, now);
        if Evicted(s, now) {
          MinusMore(st0.sessions, evicted, user);
        }
        if ReservationExpired(s, now) && HeldKey(s).Some? {
          MinusMore(old(reservations), released, HeldKey(s).value);
        }
        MovedOne(done, users, user);
        users := users - {user};
        done := done + {user};
      }
    }

    /** The body of the second loop for one user. */
    method SweepSession(user: string, now: int)
      requires user in sessions
      modifies this
      ensures sessions == if Evicted(old(sessions)[user], now) then old(sessions) - {user} else old(sessions)
      ensures reservations ==
        if ReservationExpired(old(sessions)[user], now) && HeldKey(old(sessions)[user]).Some?
        then old(reservations) - {HeldKey(old(sessions)[user]).value}
        else old(reservations)
    {
      var s := sessions[user];
      if IsSetTime(s.reservationTime) && now - s.reservationTime.value > SessionReservationTimeout {
        if IsSet(s.selectedDate) && IsSet(s.selectedSlot) {
          var key := ReservationKey(s.selectedDate.value, s.selectedDepartment, s.selectedSlot.value);
          reservations := reservations - {key};
        }
        sessions := sessions - {user};
      } else if !IsSetTime(s.reservationTime) && s.step != Idle {
        var age := now - (if IsSetTime(s.lastActivityTime) then s.lastActivityTime.value else now);
        if age > StaleSessionTimeout {
          sessions := sessions - {user};
        }
      }
    }
  }

  /** Removing one more key after a set of keys is removing the larger set. */
  lemma MovedOne(done: set<string>, todo: set<string>, x: string)
    requires x in todo && done !! todo
    ensures (done + {x}) + (todo - {x}) == done + todo && (done + {x}) !! (todo - {x})
  {
  }

  lemma MinusMore<V>(m: map<string, V>, a: set<string>, k: string)
    ensures (m - a) - {k} == m - (a + {k})
  {
  }

  /** Processing one more key of the first loop removes it exactly when it is stale. */
  lemma StaleStep(res: map<string, Reservation>, pending: set<string>, key: string, now: int)
    requires key in pending && pending <= res.Keys
    ensures key in res - (StaleKeys(res, now) - pending)
    ensures ReservationStale(res[key], now) ==>
      (res - (StaleKeys(res, now) - pending)) - {key} == res - (StaleKeys(res, now) - (pending - {key}))
    ensures !ReservationStale(res[key], now) ==>
      res - (StaleKeys(res, now) - pending) == res - (StaleKeys(res, now) - (pending - {key}))
  {
    assert StaleKeys(res, now) - (pending - {key}) ==
      (StaleKeys(res, now) - pending) + (if ReservationStale(res[key], now) then {key} else {});
  }

  /** Adding one user to those processed adds its eviction and its released key, if any. */
  lemma SweptOneMore(sessions: map<string, Session>, done: set<string>, user: string, now: int)
    requires user in sessions
    ensures Evicted(sessions[user], now) ==>
      EvictedUsers(sessions, done + {user}, now) == EvictedUsers(sessions, done, now) + {user}
    ensures !Evicted(sessions[user], now) ==>
      EvictedUsers(sessions, done + {user}, now) == EvictedUsers(sessions, done, now)
    ensures ReservationExpired(sessions[user], now) && HeldKey(sessions[user]).Some? ==>
      ReleasedKeys(sessions, done + {user}, now) == ReleasedKeys(sessions, done, now) + {HeldKey(sessions[user]).value}
    ensures !(ReservationExpired(sessions[user], now) && HeldKey(sessions[user]).Some?) ==>
      ReleasedKeys(sessions, done + {user}, now) == ReleasedKeys(sessions, done, now)
  {
  }

  /* Properties of the store. */

  /** After the user takes a key, the user does not see it as held by another, and everyone else does. */
  lemma ReservationAfterAdd(st: StoreState, key: string, user: string, other: string, now: int)
    ensures !ReservedByOther(WithReservation(st, key, user, now), key, user)
    ensures other != user ==> ReservedByOther(WithReservation(st, key, user, now), key, other)
    ensures FindReservation(WithReservation(st, key, user, now), key) == Some(Reservation(user, now))
  {
  }

  /** After a key is deleted, it is not found and nobody holds it. */
  lemma ReservationAfterDelete(st: StoreState, key: string, user: string)
    ensures FindReservation(WithoutReservation(st, key), key) == None
    ensures !ReservedByOther(WithoutReservation(st, key), key, user)
  {
  }

  /**
   * An unknown user reads as a fresh idle session, and neither a step update nor a partial
   * update creates a session for them: they stay idle.
   */
  lemma LookupUnknownIsIdle(st: StoreState, user: string, step: Step, u: Update, now: int)
    requires user !in st.sessions
    ensures Lookup(st, user) == IdleSession && Lookup(st, user).step == Idle
    ensures WithStep(st, user, step, now) == st && WithUpdates(st, user, u, now) == st
    ensures Lookup(WithStep(st, user, step, now), user).step == Idle
    ensures Lookup(WithUpdates(st, user, u, now), user).step == Idle
  {
  }

  /** The first loop of the sweep keeps exactly the reservations at most five minutes old, unchanged. */
  lemma StaleSweepExact(res: map<string, Reservation>, now: int, k: string)
    ensures k in res - StaleKeys(res, now) <==> k in res && now - res[k].timestamp <= ReservationTimeout
    ensures k in res - StaleKeys(res, now) ==> (res - StaleKeys(res, now))[k] == res[k]
  {
  }

  /** A reservation exactly five minutes old survives the first loop. */
  lemma FiveMinuteReservationSurvives(res: map<string, Reservation>, now: int, k: string)
    requires k in res && res[k].timestamp == now - 300000
    ensures k in res - StaleKeys(res, now)
  {
  }

  /** The sweep keeps exactly the sessions it does not evict, unchanged. */
  lemma {:induction false} SessionSweepExact(st: StoreState, now: int, u: string)
    ensures u in Swept(st, now).sessions <==> u in st.sessions && !Evicted(st.sessions[u], now)
    ensures u in Swept(st, now).sessions ==> Swept(st, now).sessions[u] == st.sessions[u]
  {
    assert u in EvictedUsers(st.sessions, st.sessions.Keys, now) <==> u in st.sessions && Evicted(st.sessions[u], now);
  }

  /**
   * A reservation survives the sweep exactly when it is at most five minutes old and
   * no session whose own reservation expired holds its key.
   */
  lemma {:induction false} ReservationSweepExact(st: StoreState, now: int, k: string)
    ensures k in Swept(st, now).reservations <==>
      k in st.reservations && now - st.reservations[k].timestamp <= ReservationTimeout &&
      !(exists u :: u in st.sessions && ReservationExpired(st.sessions[u], now) && HeldKey(st.sessions[u]) == Some(k))
    ensures k in Swept(st, now).reservations ==> Swept(st, now).reservations[k] == st.reservations[k]
  {
    var released := ReleasedKeys(st.sessions, st.sessions.Keys, now);
    if k in released {
      var u :| u in st.sessions && ReservationExpired(st.sessions[u], now) && HeldKey(st.sessions[u]).Some? && HeldKey(st.sessions[u]).value == k;
      assert HeldKey(st.sessions[u]) == Some(k);
    }
    if exists u :: u in st.sessions && ReservationExpired(st.sessions[u], now) && HeldKey(st.sessions[u]) == Some(k) {
      var u :| u in st.sessions && ReservationExpired(st.sessions[u], now) && HeldKey(st.sessions[u]) == Some(k);
      assert k in released;
    }
  }

  /** A session whose reservation is over 30 minutes old is evicted and the key it holds is freed. */
  lemma {:induction false} ExpiredSessionReleasesKey(st: StoreState, now: int, u: string)
    requires u in st.sessions && ReservationExpired(st.sessions[u], now)
    ensures u !in Swept(st, now).sessions
    ensures HeldKey(st.sessions[u]).Some? ==> HeldKey(st.sessions[u]).value !in Swept(st, now).reservations
  {
    SessionSweepExact(st, now, u);
    if HeldKey(st.sessions[u]).Some? {
      ReservationSweepExact(st, now, HeldKey(st.sessions[u]).value);
    }
  }

  /**
   * A session without a reservation time survives the sweep when it is idle or has no
   * activity time; otherwise it goes exactly when it has been inactive over 10 minutes.
   */
  lemma {:induction false} UnreservedSessionSweep(st: StoreState, now: int, u: string)
    requires u in st.sessions && !IsSetTime(st.sessions[u].reservationTime)
    ensures st.sessions[u].step == Idle ==> u in Swept(st, now).sessions
    ensures !IsSetTime(st.sessions[u].lastActivityTime) ==> u in Swept(st, now).sessions
    ensures st.sessions[u].step != Idle && IsSetTime(st.sessions[u].lastActivityTime) ==>
      (u in Swept(st, now).sessions <==> now - st.sessions[u].lastActivityTime.value <= 600000)
  {
    SessionSweepExact(st, now, u);
  }

  /** Clearing a user's held reservation never removes a session. */
  lemma ClearKeepsSessions(st: StoreState, user: string, key: string)
    ensures ExpiredReservationCleared(st, user).sessions == st.sessions
    ensures key in st.reservations && !(user in st.sessions && HeldKey(st.sessions[user]) == Some(key)) ==>
      key in ExpiredReservationCleared(st, user).reservations
  {
  }
}
