/**
 * The validation service of the booking flow: phone-number normalisation, the strict
 * `dd/mm/yyyy` date reader, the not-in-the-past, weekday and advance-horizon rules, and
 * the combined check that turns a typed date into the `yyyy-mm-dd` form the store keeps.
 * The current day, which the source reads from the clock, is the parameter `today`.
 */
module Validation {
  import opened Wrappers
  import opened Text
  import opened Calendar

  // ---------------------------------------------------------------- phone numbers

  /** `phone.replace(/\D/g, '')`: the ASCII digits of `s`, in order. */
  function DigitsOnly(s: string): (r: string)
    ensures AllDigits(r) && |r| <= |s|
    ensures AllDigits(s) ==> r == s
  {
    if s == [] then [] else (if IsDigit(s[0]) then [s[0]] else []) + DigitsOnly(s[1..])
  }

  /** A single character is kept exactly when it is a digit. */
  lemma DigitsOnlyChar(c: char)
    ensures DigitsOnly([c]) == (if IsDigit(c) then [c] else [])
  {
    assert [c][1..] == [];
  }

  /**
   * Removing the non-digits of a concatenation removes them from each part, so with
   * `DigitsOnlyChar` the digits of any text are its digit characters, each once, in order.
   */
  lemma {:induction false} DigitsOnlyAppend(a: string, b: string)
    ensures DigitsOnly(a + b) == DigitsOnly(a) + DigitsOnly(b)
    decreases |a|
  {
    if a != [] {
      var head := if IsDigit(a[0]) then [a[0]] else [];
      assert (a + b)[0] == a[0] && (a + b)[1..] == a[1..] + b;
      assert DigitsOnly(a + b) == head + DigitsOnly(a[1..] + b);
      DigitsOnlyAppend(a[1..], b);
      assert DigitsOnly(a) == head + DigitsOnly(a[1..]);
    } else {
      assert a + b == b;
    }
  }

  /** A character is among the kept ones exactly when it is a digit of the text. */
  lemma {:induction false} DigitsOnlyMembers(s: string, c: char)
    ensures c in DigitsOnly(s) <==> c in s && IsDigit(c)
    decreases |s|
  {
    if s != [] {
      DigitsOnlyMembers(s[1..], c);
      assert s == [s[0]] + s[1..];
    }
  }

  function Min(a: int, b: int): int
  {
    if a <= b then a else b
  }

  /** `normalizePhoneNumber`: keep the digits, and of more than ten only the last ten. */
  function NormalizePhoneNumber(phone: string): (r: string)
    ensures AllDigits(r) && |r| == Min(|DigitsOnly(phone)|, 10)
    ensures r == DigitsOnly(phone)[|DigitsOnly(phone)| - |r|..]
  {
    var digits := DigitsOnly(phone);
    if |digits| > 10 then digits[|digits| - 10..] else digits
  }

  /** Normalising twice is normalising once. */
  lemma {:induction false} NormalizeIdempotent(phone: string)
    ensures NormalizePhoneNumber(NormalizePhoneNumber(phone)) == NormalizePhoneNumber(phone)
  {
    var r := NormalizePhoneNumber(phone);
    assert DigitsOnly(r) == r;
  }

  // ---------------------------------------------------------------- the advance horizon

  /** No day number strictly between `lo` and `hi` is a weekday. */
  predicate WeekendBetween(lo: int, hi: int)
    decreases hi - lo
  {
    hi <= lo + 1 || (!IsWeekdayNumber(hi - 1) && WeekendBetween(lo, hi - 1))
  }

  /** How many weekdays have a day number in [a, b]. */
  function CountWeekdays(a: int, b: int): nat
    decreases b - a
  {
    if b < a then 0 else CountWeekdays(a, b - 1) + (if IsWeekdayNumber(b) then 1 else 0)
  }

  /** The day number of the first weekday after day `n`. */
  function NextWeekdayNumber(n: int): (r: int)
    ensures n < r <= n + 3 && IsWeekdayNumber(r) && WeekendBetween(n, r)
  {
    if IsWeekdayNumber(n + 1) then n + 1
    else if IsWeekdayNumber(n + 2) then n + 2
    else n + 3
  }

  /** The day number of the `k`-th weekday after day `t` (`t` itself when `k` is not positive). */
  function HorizonNumber(t: int, k: int): (r: int)
    ensures t <= r
    ensures k >= 1 ==> t < r && IsWeekdayNumber(r)
    decreases k
  {
    if k <= 0 then t else NextWeekdayNumber(HorizonNumber(t, k - 1))
  }

  lemma {:induction false} CountSkipsWeekends(a: int, b: int, c: int)
    requires a - 1 <= b <= c
    requires WeekendBetween(b, c + 1)
    ensures CountWeekdays(a, c) == CountWeekdays(a, b)
    decreases c - b
  {
    if c > b {
      CountSkipsWeekends(a, b, c - 1);
    }
  }

  /** Exactly `n` weekdays lie after day `t` up to and including its `n`-th weekday. */
  lemma {:induction false} HorizonCounts(t: int, n: nat)
    ensures CountWeekdays(t + 1, HorizonNumber(t, n)) == n
  {
    if n > 0 {
      var b := HorizonNumber(t, n - 1);
      HorizonCounts(t, n - 1);
      CountSkipsWeekends(t + 1, b, NextWeekdayNumber(b) - 1);
    }
  }

  lemma {:induction false} CountMonotone(a: int, b: int, c: int)
    requires b <= c
    ensures CountWeekdays(a, b) <= CountWeekdays(a, c)
    decreases c - b
  {
    if b < c {
      CountMonotone(a, b, c - 1);
    }
  }

  /**
   * A weekday is no later than the `n`-th weekday after day `t` exactly when at most `n`
   * weekdays lie after `t` up to and including it.
   */
  lemma {:induction false} HorizonOrder(t: int, n: nat, x: int)
    requires IsWeekdayNumber(x)
    ensures x <= HorizonNumber(t, n) <==> CountWeekdays(t + 1, x) <= n
  {
    var m := HorizonNumber(t, n);
    HorizonCounts(t, n);
    if x <= m {
      CountMonotone(t + 1, x, m);
    } else {
      CountMonotone(t + 1, m, x - 1);
    }
  }

  /** The first weekday strictly after `d`. */
  function NextWeekdayDate(d: CalDate): (r: CalDate)
    requires ValidDate(d)
    ensures ValidDate(r) && DayNumber(r) == NextWeekdayNumber(DayNumber(d))
  {
    var d1 := NextDate(d);
    NextDateStep(d);
    if IsWeekday(d1) then d1
    else
      var d2 := NextDate(d1);
      NextDateStep(d1);
      if IsWeekday(d2) then d2
      else
        NextDateStep(d2);
        NextDate(d2)
  }

  /**
   * The latest bookable day: the `weekdaysAhead`-th weekday after `today` (today itself
   * when `weekdaysAhead` is not positive). `calculateMaxAdvanceDate` computes it with a
   * loop; the method below is proved to agree with this definition.
   */
  function MaxAdvanceDate(today: CalDate, weekdaysAhead: int): (r: CalDate)
    requires ValidDate(today)
    ensures ValidDate(r) && DayNumber(r) == HorizonNumber(DayNumber(today), weekdaysAhead)
    decreases weekdaysAhead
  {
    if weekdaysAhead <= 0 then today else NextWeekdayDate(MaxAdvanceDate(today, weekdaysAhead - 1))
  }

  /** The latest bookable day is a weekday after today, with `n` weekdays up to it from tomorrow. */
  lemma {:induction false} MaxAdvanceDateCounts(today: CalDate, n: nat)
    requires ValidDate(today)
    ensures n >= 1 ==>
      IsWeekday(MaxAdvanceDate(today, n)) && DayNumber(today) < DayNumber(MaxAdvanceDate(today, n))
    ensures CountWeekdays(DayNumber(today) + 1, DayNumber(MaxAdvanceDate(today, n))) == n
  {
    HorizonCounts(DayNumber(today), n);
  }

  /**
   * For a weekday, being no later than the latest bookable day means being at most the
   * `n`-th weekday after today.
   */
  lemma {:induction false} HorizonMeaning(today: CalDate, n: int, date: CalDate)
    requires ValidDate(today) && ValidDate(date)
    ensures IsWeekday(date) && n >= 0 ==>
      (DayNumber(date) <= DayNumber(MaxAdvanceDate(today, n)) <==>
       CountWeekdays(DayNumber(today) + 1, DayNumber(date)) <= n)
  {
    if IsWeekday(date) && n >= 0 {
      HorizonOrder(DayNumber(today), n, DayNumber(date));
    }
  }

  /** A day strictly inside a run of weekend days is not a weekday. */
  lemma {:induction false} WeekendBetweenHas(lo: int, hi: int, x: int)
    ensures WeekendBetween(lo, hi) && lo < x < hi ==> !IsWeekdayNumber(x)
    decreases hi - lo
  {
    if hi > lo + 1 {
      WeekendBetweenHas(lo, hi - 1, x);
    }
  }

  /** A weekday reached after nothing but weekend days is the next weekday. */
  lemma {:induction false} FirstWeekdayAfter(n: int, x: int)
    requires n < x && WeekendBetween(n, x) && IsWeekdayNumber(x)
    ensures NextWeekdayNumber(n) == x
  {
    var r := NextWeekdayNumber(n);
    WeekendBetweenHas(n, x, r);
    WeekendBetweenHas(n, r, x);
  }

  lemma {:induction false} HorizonStep(t: int, k: nat)
    ensures HorizonNumber(t, k + 1) == NextWeekdayNumber(HorizonNumber(t, k))
  {
  }

  /** The loop below meets a weekday after weekend days since day `h`: it is the next weekday. */
  lemma {:induction false} WeekdayCounted(h: int, x: int)
    requires h < x && WeekendBetween(h, x) && IsWeekdayNumber(x)
    ensures NextWeekdayNumber(h) == x && WeekendBetween(x, x + 1)
  {
    FirstWeekdayAfter(h, x);
  }

  /** The loop below meets a weekend day after weekend days since day `h`: the run goes on, at most three days. */
  lemma {:induction false} WeekendPassed(h: int, x: int)
    requires h < x && WeekendBetween(h, x) && !IsWeekdayNumber(x)
    ensures WeekendBetween(h, x + 1) && x + 1 <= h + 3
  {
    WeekendBetweenHas(h, x, NextWeekdayNumber(h));
  }

  /**
   * The walk of `calculateMaxAdvanceDate` on day numbers, from today `t`: `count` weekdays
   * were counted, the last of them (`t` before any) is day `last`, `gap` weekend days were
   * passed since, and day `c` is the next to look at.
   */
  predicate Walked(t: int, count: int, last: int, gap: int, c: int)
  {
    last == HorizonNumber(t, count) && 0 <= gap <= 2 && c == last + 1 + gap && WeekendBetween(last, c)
  }

  /** Looking at day `c` either counts it as the next weekday or passes one more weekend day. */
  lemma WalkStep(t: int, count: nat, last: int, gap: int, c: int)
    requires Walked(t, count, last, gap, c)
    ensures IsWeekdayNumber(c) ==> Walked(t, count + 1, c, 0, c + 1)
    ensures !IsWeekdayNumber(c) ==> gap < 2 && Walked(t, count, last, gap + 1, c + 1)
  {
    if IsWeekdayNumber(c) {
      WeekdayCounted(last, c);
      HorizonStep(t, count);
    } else {
      WeekendPassed(last, c);
    }
  }

  /**
   * The state of the walk at date `c`: `count` of the `ahead` weekdays are counted, the
   * last of them is day `last`, and `gap` weekend days were passed since.
   */
  predicate WalkAt(today: CalDate, ahead: int, count: int, last: int, gap: int, c: CalDate)
  {
    ValidDate(today) && ValidDate(c) && 0 <= count && (count <= ahead || count == 0)
    && Walked(DayNumber(today), count, last, gap, DayNumber(c))
    && (count >= ahead ==> gap == 0)
  }

  /** The walk starts at `c`, the day after today, with nothing counted. */
  lemma WalkStart(today: CalDate, ahead: int, c: CalDate)
    requires ValidDate(today) && ValidDate(c) && DayNumber(c) == DayNumber(today) + 1
    ensures WalkAt(today, ahead, 0, DayNumber(today), 0, c)
  {
  }

  /**
   * Looking at day `c` and stepping to the day `e` after it moves the walk along: a weekday
   * is counted and becomes the last one, a weekend day adds to the gap.
   */
  lemma WalkDay(today: CalDate, ahead: int, count: nat, last: int, gap: int, c: CalDate,
                count': int, last': int, gap': int, e: CalDate)
    requires WalkAt(today, ahead, count, last, gap, c) && count < ahead
    requires if DayOfWeek(c) != 0 && DayOfWeek(c) != 6
             then count' == count + 1 && last' == DayNumber(c) && gap' == 0
             else count' == count && last' == last && gap' == gap + 1
    requires ValidDate(e) && DayNumber(e) == DayNumber(c) + 1
    ensures WalkAt(today, ahead, count', last', gap', e)
    ensures count' == count + 1 || gap' <= 2
  {
    var n := DayNumber(c);
    assert (DayOfWeek(c) != 0 && DayOfWeek(c) != 6) == IsWeekdayNumber(n);
    WalkStep(DayNumber(today), count, last, gap, n);
    assert DayNumber(e) == n + 1;
  }

  /**
   * `calculateMaxAdvanceDate`: start tomorrow, walk forward a day at a time counting
   * weekdays until `weekdaysAhead` of them are counted, then step back one day.
   */
  method CalculateMaxAdvanceDate(today: CalDate, weekdaysAhead: int) returns (r: CalDate)
    requires ValidDate(today)
    ensures r == MaxAdvanceDate(today, weekdaysAhead)
  {
    var currentDate := StepForward(today);
    var weekdaysCount := 0;
    // the day number of the last weekday counted (today before any), and how many weekend
    // days were passed since
    ghost var last := DayNumber(today);
    ghost var gap := 0;
    WalkStart(today, weekdaysAhead, currentDate);
    while weekdaysCount < weekdaysAhead
      invariant WalkAt(today, weekdaysAhead, weekdaysCount, last, gap, currentDate)
      decreases weekdaysAhead - weekdaysCount, 2 - gap
    {
      ghost var seen, count0, last0, gap0 := currentDate, weekdaysCount, last, gap;
      var dayOfWeek := DayOfWeek(currentDate);
      if dayOfWeek != 0 && dayOfWeek != 6 {
        weekdaysCount := weekdaysCount + 1;
        last, gap := DayNumber(currentDate), 0;
      } else {
        gap := gap + 1;
      }
      currentDate := StepForward(currentDate);
      WalkDay(today, weekdaysAhead, count0, last0, gap0, seen, weekdaysCount, last, gap, currentDate);
    }
    r := StepBack(currentDate);
    WalkEnd(today, weekdaysAhead, weekdaysCount, last, gap, currentDate, r);
  }

  /** When the walk stops, the day `p` before the one it would look at next is the latest bookable day. */
  lemma WalkEnd(today: CalDate, weekdaysAhead: int, count: int, last: int, gap: int, c: CalDate, p: CalDate)
    requires WalkAt(today, weekdaysAhead, count, last, gap, c) && count >= weekdaysAhead
    requires ValidDate(p) && DayNumber(p) == DayNumber(c) - 1
    ensures p == MaxAdvanceDate(today, weekdaysAhead)
  {
    var t := DayNumber(today);
    if weekdaysAhead <= 0 {
      assert HorizonNumber(t, weekdaysAhead) == t == HorizonNumber(t, count);
    } else {
      assert count == weekdaysAhead;
    }
    var target := MaxAdvanceDate(today, weekdaysAhead);
    assert DayNumber(p) == last == DayNumber(target);
    DayNumberInjective(p, target);
  }

  // ---------------------------------------------------------------- reading a date

  /**
   * The regular expression `^(\d{1,2})\/(\d{1,2})\/(\d{4})$` and its three groups. Digits
   * contain no '/', so it matches exactly when the text splits at '/' into a 1-2 digit,
   * a 1-2 digit and a 4 digit part.
   */
  function MatchDayMonthYear(s: string): (r: Option<(string, string, string)>)
    ensures r.Some? ==> AllDigits(r.value.0) && 1 <= |r.value.0| <= 2
    ensures r.Some? ==> AllDigits(r.value.1) && 1 <= |r.value.1| <= 2
    ensures r.Some? ==> AllDigits(r.value.2) && |r.value.2| == 4
  {
    var parts := Split(s, '/');
    if |parts| == 3 && 1 <= |parts[0]| <= 2 && 1 <= |parts[1]| <= 2 && |parts[2]| == 4
       && AllDigits(parts[0]) && AllDigits(parts[1]) && AllDigits(parts[2])
    then Some((parts[0], parts[1], parts[2]))
    else None
  }

  /** The text matched by the date expression is exactly its three groups joined by '/'. */
  lemma {:induction false} MatchDayMonthYearExact(s: string)
    requires MatchDayMonthYear(s).Some?
    ensures var g := MatchDayMonthYear(s).value; s == g.0 + "/" + g.1 + "/" + g.2
  {
    var parts := Split(s, '/');
    JoinSplit(s, '/');
    assert Join(parts[2..], "/") == parts[2];
    assert Join(parts[1..], "/") == parts[1] + "/" + parts[2];
  }

  /** Any 1-2 / 1-2 / 4 digit text is matched, with those groups. */
  lemma {:induction false} MatchDayMonthYearComplete(d: string, m: string, y: string)
    requires AllDigits(d) && 1 <= |d| <= 2 && AllDigits(m) && 1 <= |m| <= 2 && AllDigits(y) && |y| == 4
    ensures MatchDayMonthYear(d + "/" + m + "/" + y) == Some((d, m, y))
  {
    DigitsExclude(d, '/');
    DigitsExclude(m, '/');
    DigitsExclude(y, '/');
    SplitThree(d, m, y, '/');
  }

  /** The date the three groups name: day, 1-based month and year. */
  function GroupsDate(g: (string, string, string)): CalDate
    requires AllDigits(g.0) && AllDigits(g.1) && AllDigits(g.2)
  {
    CalDate(DigitsValue(g.2), DigitsValue(g.1) - 1, DigitsValue(g.0))
  }

  /**
   * What the source's `Date` round trip accepts: JavaScript normalises an out-of-range
   * month or day into another date and reads years 0..99 as 1900..1999, so reading the
   * fields back gives the same year, month and day exactly when they name a real day of a
   * year from 100 on.
   */
  predicate DateRoundTrips(d: CalDate)
  {
    100 <= d.year && ValidDate(d)
  }

  /** `validateDateFormat`: the day, the 0-based month and the year of a real `dd/mm/yyyy` date. */
  function ValidateDateFormat(input: string): (r: Option<CalDate>)
    ensures r.Some? ==> ValidDate(r.value) && 100 <= r.value.year <= 9999
    ensures r.Some? ==> MatchDayMonthYear(input).Some? && r.value == GroupsDate(MatchDayMonthYear(input).value)
    ensures r.None? <==>
      MatchDayMonthYear(input).None? || !DateRoundTrips(GroupsDate(MatchDayMonthYear(input).value))
  {
    match MatchDayMonthYear(input)
    case None => None
    case Some(g) =>
      var date := GroupsDate(g);
      assert date.year < 10000 by { DigitsBound(g.2); assert Pow10(4) == 10000; }
      if DateRoundTrips(date) then Some(date) else None
  }

  /** `dd/mm/yyyy` with two-digit day and month and four-digit year. */
  function FormatDayMonthYear(d: CalDate): string
    requires ValidDate(d) && 0 <= d.year < 10000
  {
    Pad2(d.day) + "/" + Pad2(d.month + 1) + "/" + Pad4(d.year)
  }

  /** On `d/m/y` with digit groups of the right lengths the reader accepts exactly a date that round-trips. */
  lemma {:induction false} ValidateDateFormatGroups(d: string, m: string, y: string)
    requires AllDigits(d) && 1 <= |d| <= 2 && AllDigits(m) && 1 <= |m| <= 2 && AllDigits(y) && |y| == 4
    ensures ValidateDateFormat(d + "/" + m + "/" + y)
         == if DateRoundTrips(GroupsDate((d, m, y))) then Some(GroupsDate((d, m, y))) else None
  {
    MatchDayMonthYearComplete(d, m, y);
  }

  /** Every real date of years 100..9999, written `dd/mm/yyyy`, is read back as itself. */
  lemma {:induction false} ValidateDateFormatAccepts(date: CalDate)
    requires ValidDate(date) && 100 <= date.year <= 9999
    ensures ValidateDateFormat(FormatDayMonthYear(date)) == Some(date)
  {
    var d, m, y := Pad2(date.day), Pad2(date.month + 1), Pad4(date.year);
    ValidateDateFormatGroups(d, m, y);
    assert GroupsDate((d, m, y)) == date;
  }

  /** The 31st of February is refused. */
  lemma NoThirtyFirstOfFebruary()
    ensures ValidateDateFormat("31" + "/" + "02" + "/" + "2024") == None
  {
    ValidateDateFormatGroups("31", "02", "2024");
    TwoDigitsValue("31");
    TwoDigitsValue("02");
  }

  /** A year of two significant digits is refused, since the source's `Date` reads it as 19yy. */
  lemma NoTwoDigitYear()
    ensures ValidateDateFormat("01" + "/" + "01" + "/" + "0024") == None
  {
    ValidateDateFormatGroups("01", "01", "0024");
    FourDigitsValue("0024");
  }

  /** Single-digit day and month are accepted. */
  lemma SingleDigitFields()
    ensures ValidateDateFormat("1" + "/" + "1" + "/" + "2024") == Some(CalDate(2024, 0, 1))
  {
    ValidateDateFormatGroups("1", "1", "2024");
    OneDigitValue("1");
    FourDigitsValue("2024");
  }

  // ---------------------------------------------------------------- the date rules

  /** `validateDateNotInPast`: the day is today or later. */
  function ValidateDateNotInPast(date: CalDate, today: CalDate): (ok: bool)
    requires ValidDate(date) && ValidDate(today)
    ensures date == today ==> ok
    ensures ok <==> DayNumber(today) <= DayNumber(date)
  {
    DayNumber(date) >= DayNumber(today)
  }

  /** `validateWeekday`: false exactly on Sunday (0) and Saturday (6). */
  function ValidateWeekday(date: CalDate): (ok: bool)
    requires ValidDate(date)
    ensures ok <==> IsWeekday(date)
    ensures !ok <==> DayOfWeek(date) == 0 || DayOfWeek(date) == 6
  {
    var dayOfWeek := DayOfWeek(date);
    dayOfWeek != 0 && dayOfWeek != 6
  }

  /** `validateAdvanceBookingLimit`: no later than the latest bookable day. */
  function ValidateAdvanceBookingLimit(date: CalDate, maxWeekdays: int, today: CalDate): (ok: bool)
    requires ValidDate(date) && ValidDate(today)
    ensures ok ==> maxWeekdays >= 1 || DayNumber(date) <= DayNumber(today)
    ensures IsWeekday(date) && maxWeekdays >= 0 ==>
      (ok <==> CountWeekdays(DayNumber(today) + 1, DayNumber(date)) <= maxWeekdays)
  {
    HorizonMeaning(today, maxWeekdays, date);
    DayNumber(date) <= DayNumber(MaxAdvanceDate(today, maxWeekdays))
  }

  /** How many weekdays ahead a booking may be. */
  const MaxWeekdaysAhead := 7

  /** `yyyy-mm-dd`, the form the appointment store keeps dates in. */
  function FormatIsoDate(d: CalDate): (r: string)
    requires 0 <= d.year <= 9999 && 0 <= d.month < 99 && 0 <= d.day < 100
    ensures |r| == 10 && r[4] == '-' && r[7] == '-'
    ensures ParseIsoDate(r) == Some(d)
  {
    IsoFieldsParse(d.year, d.month + 1, d.day);
    Pad4(d.year) + "-" + Pad2(d.month + 1) + "-" + Pad2(d.day)
  }

  /** Reading a `yyyy-mm-dd` text back as a date. */
  function ParseIsoDate(s: string): (r: Option<CalDate>)
  {
    var parts := Split(s, '-');
    if |parts| == 3 && |parts[0]| == 4 && |parts[1]| == 2 && |parts[2]| == 2
       && AllDigits(parts[0]) && AllDigits(parts[1]) && AllDigits(parts[2])
    then Some(CalDate(DigitsValue(parts[0]), DigitsValue(parts[1]) - 1, DigitsValue(parts[2])))
    else None
  }

  /** The stored form of any date of years 0..9999 reads back as that date. */
  lemma {:induction false} IsoDateRoundTrip(d: CalDate)
    requires 0 <= d.year <= 9999 && 0 <= d.month < 99 && 0 <= d.day < 100
    ensures ParseIsoDate(FormatIsoDate(d)) == Some(d)
  {
  }

  lemma {:induction false} IsoFieldsParse(year: nat, month: nat, day: nat)
    requires year < 10000 && month < 100 && day < 100
    ensures ParseIsoDate(Pad4(year) + "-" + Pad2(month) + "-" + Pad2(day))
         == Some(CalDate(year, month - 1, day))
  {
    ParseIsoDigits(Pad4(year), Pad2(month), Pad2(day), year, month, day);
  }

  lemma {:induction false} ParseIsoDigits(y: string, m: string, d: string, year: nat, month: nat, day: nat)
    requires AllDigits(y) && AllDigits(m) && AllDigits(d) && |y| == 4 && |m| == 2 && |d| == 2
    requires DigitsValue(y) == year && DigitsValue(m) == month && DigitsValue(d) == day
    ensures ParseIsoDate(y + "-" + m + "-" + d) == Some(CalDate(year, month - 1, day))
  {
    DigitsExclude(y, '-');
    DigitsExclude(m, '-');
    DigitsExclude(d, '-');
    SplitThree(y, m, d, '-');
  }

  // ---------------------------------------------------------------- the combined check

  datatype DateError =
    | InvalidFormat                        // not a real dd/mm/yyyy date
    | InPast                               // before today
    | NotWeekday                           // a Saturday or a Sunday
    | BeyondHorizon(latest: CalDate)       // later than the latest bookable day, which it names

  datatype DateValidation =
    | ValidAppointmentDate(date: CalDate, formattedDate: string)
    | InvalidAppointmentDate(error: DateError)

  /**
   * The rules `validateAppointmentDate` applies once the text is a real date: not in the
   * past, then a weekday, then within the horizon of `maxWeekdays` weekdays. A date passing
   * all three comes with its `yyyy-mm-dd` form; `CheckAppointmentDateRules` says which error
   * each failing date gets.
   */
  function CheckAppointmentDate(date: CalDate, today: CalDate, maxWeekdays: nat): (r: DateValidation)
    requires ValidDate(date) && 0 <= date.year <= 9999 && ValidDate(today)
    ensures r != InvalidAppointmentDate(InvalidFormat)
    ensures r.ValidAppointmentDate? ==> r.date == date && ParseIsoDate(r.formattedDate) == Some(date)
  {
    if !ValidateDateNotInPast(date, today) then InvalidAppointmentDate(InPast)
    else if !ValidateWeekday(date) then InvalidAppointmentDate(NotWeekday)
    else if !ValidateAdvanceBookingLimit(date, maxWeekdays, today) then
      InvalidAppointmentDate(BeyondHorizon(MaxAdvanceDate(today, maxWeekdays)))
    else
      IsoDateRoundTrip(date);
      ValidAppointmentDate(date, FormatIsoDate(date))
  }

  /**
   * The first rule that fails names the error: in the past exactly when before today, not a
   * weekday exactly when today or later and a weekend day, beyond the horizon exactly when
   * the earlier rules pass and more than `maxWeekdays` weekdays lie after today up to it,
   * and that error names the latest bookable day.
   */
  lemma CheckAppointmentDateRules(date: CalDate, today: CalDate, maxWeekdays: nat)
    requires ValidDate(date) && 0 <= date.year <= 9999 && ValidDate(today)
    ensures var r := CheckAppointmentDate(date, today, maxWeekdays);
      && (r == InvalidAppointmentDate(InPast) <==> DayNumber(date) < DayNumber(today))
      && (r == InvalidAppointmentDate(NotWeekday) <==>
            DayNumber(today) <= DayNumber(date) && !IsWeekday(date))
      && (r.InvalidAppointmentDate? && r.error.BeyondHorizon? <==>
            DayNumber(today) <= DayNumber(date) && IsWeekday(date)
            && CountWeekdays(DayNumber(today) + 1, DayNumber(date)) > maxWeekdays)
      && (r.InvalidAppointmentDate? && r.error.BeyondHorizon? ==>
            r.error.latest == MaxAdvanceDate(today, maxWeekdays))
  {
    var r := CheckAppointmentDate(date, today, maxWeekdays);
    if !ValidateDateNotInPast(date, today) {
      assert r == InvalidAppointmentDate(InPast);
    } else if !ValidateWeekday(date) {
      assert r == InvalidAppointmentDate(NotWeekday);
    } else if !ValidateAdvanceBookingLimit(date, maxWeekdays, today) {
      assert r == InvalidAppointmentDate(BeyondHorizon(MaxAdvanceDate(today, maxWeekdays)));
    } else {
      assert r.ValidAppointmentDate?;
    }
  }

  /** `validateAppointmentDate`: the format check first, then the date rules. */
  function ValidateAppointmentDate(input: string, today: CalDate): (r: DateValidation)
    requires ValidDate(today)
    ensures r == InvalidAppointmentDate(InvalidFormat) <==> ValidateDateFormat(input).None?
    ensures ValidateDateFormat(input).Some? ==>
      r == CheckAppointmentDate(ValidateDateFormat(input).value, today, MaxWeekdaysAhead)
  {
    match ValidateDateFormat(input)
    case None => InvalidAppointmentDate(InvalidFormat)
    case Some(date) => CheckAppointmentDate(date, today, MaxWeekdaysAhead)
  }

  /**
   * An accepted date is the one the text names, today or later, a weekday and at most
   * seven weekdays ahead, and its stored form reads back as it.
   */
  lemma {:induction false} AcceptedDateMeaning(input: string, today: CalDate)
    requires ValidDate(today) && ValidateAppointmentDate(input, today).ValidAppointmentDate?
    ensures var r := ValidateAppointmentDate(input, today);
      ValidateDateFormat(input) == Some(r.date) && ParseIsoDate(r.formattedDate) == Some(r.date)
      && DayNumber(today) <= DayNumber(r.date) && IsWeekday(r.date)
      && CountWeekdays(DayNumber(today) + 1, DayNumber(r.date)) <= MaxWeekdaysAhead
  {
    var date := ValidateDateFormat(input).value;
    assert ValidateAppointmentDate(input, today) == CheckAppointmentDate(date, today, MaxWeekdaysAhead);
    CheckAppointmentDateRules(date, today, MaxWeekdaysAhead);
  }

  /** Today is bookable whenever it is a weekday written as a real date. */
  lemma {:induction false} TodayIsBookable(today: CalDate)
    requires ValidDate(today) && 100 <= today.year <= 9999 && IsWeekday(today)
    ensures ValidateAppointmentDate(FormatDayMonthYear(today), today)
         == ValidAppointmentDate(today, FormatIsoDate(today))
  {
    ValidateDateFormatAccepts(today);
    assert CountWeekdays(DayNumber(today) + 1, DayNumber(today)) == 0;
  }
}
