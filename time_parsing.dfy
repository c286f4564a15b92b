/**
 * `parseFlexibleTimeInput`, the reader of the time of day a patient types, in the two
 * versions the repository holds: the clinic-hours version of test-time-parsing.js and
 * the all-afternoon version of test-final.js. Both clean the input with `trim` and
 * `toLowerCase`, then try three regular expressions in turn:
 *
 *   1. `^\d{1,2}:\d{2}$`             a 24-hour `H:MM` or `HH:MM`
 *   2. `^(\d{1,2}):(\d{2})\s*(am|pm)$` a 12-hour time with its period
 *   3. `^(\d{1,2}):(\d{2})$`          a bare time read by a heuristic
 *
 * The third expression is the first one again, so its branch is never taken: both
 * versions behave exactly like the two-branch reader `ParseTwoBranch`.
 *
 * A successful result is the zero-padded `HH:MM` text of a time of day.
 */
module TimeParsing {
  import opened Wrappers
  import opened Text

  datatype Period = Am | Pm

  function PeriodText(p: Period): (t: string)
    ensures |t| == 2 && t[1] == 'm'
  {
    match p
    case Am => "am"
    case Pm => "pm"
  }

  /**
   * `^(\d{1,2}):(\d{2})$` with the values of its two groups (`Number` and `parseInt`
   * agree on a string of digits).
   */
  function HourMinute(s: string): (r: Option<(nat, nat)>)
    ensures r.Some? ==> r.value.0 < 100 && r.value.1 < 100
    ensures r.Some? ==> (|s| == 4 || |s| == 5)
    ensures r.Some? ==> s == FixedDigits(r.value.0, |s| - 3) + ":" + FixedDigits(r.value.1, 2)
  {
    var parts := Split(s, ':');
    if |parts| == 2 && 1 <= |parts[0]| <= 2 && |parts[1]| == 2
       && AllDigits(parts[0]) && AllDigits(parts[1])
    then
      HourMinuteParts(s, parts[0], parts[1]);
      Some((DigitsValue(parts[0]), DigitsValue(parts[1])))
    else None
  }

  /** The two digit groups around the colon spell the string back, each at its own width. */
  lemma {:induction false} HourMinuteParts(s: string, hs: string, ms: string)
    requires Split(s, ':') == [hs, ms]
    requires 1 <= |hs| <= 2 && |ms| == 2 && AllDigits(hs) && AllDigits(ms)
    ensures DigitsValue(hs) < 100 && DigitsValue(ms) < 100
    ensures |s| == |hs| + 3 && s == FixedDigits(DigitsValue(hs), |hs|) + ":" + FixedDigits(DigitsValue(ms), 2)
  {
    JoinSplit(s, ':');
    assert Join([hs, ms], [':']) == hs + ":" + ms;
    DigitsOfValue(hs);
    DigitsOfValue(ms);
    DigitsBound(hs);
    DigitsBound(ms);
    assert Pow10(2) == 100;
    assert Pow10(1) == 10;
  }

  /** A match ends in a minute digit. */
  lemma {:induction false} HourMinuteEndsInDigit(s: string)
    ensures HourMinute(s).Some? ==> |s| >= 1 && IsDigit(s[|s| - 1])
  {
    if HourMinute(s).Some? {
      var v := HourMinute(s).value;
      assert s[|s| - 1] == FixedDigits(v.1, 2)[1];
    }
  }

  /** Every `H:MM` or `HH:MM` text, leading zeros allowed, matches with its own values. */
  lemma {:induction false} HourMinuteOf(h: nat, k: nat, m: nat)
    requires 1 <= k <= 2 && h < Pow10(k) && m < 100
    ensures HourMinute(FixedDigits(h, k) + ":" + FixedDigits(m, 2)) == Some((h, m))
  {
    var hs, ms := FixedDigits(h, k), FixedDigits(m, 2);
    assert Pow10(2) == 100;
    assert DigitsValue(hs) == h && DigitsValue(ms) == m;
    DigitsExclude(hs, ':');
    DigitsExclude(ms, ':');
    SplitAt(hs, ':', ms);
    assert Split(ms, ':') == [ms];
    HourMinuteOfParts(hs + ":" + ms, hs, ms);
  }

  /** Two digit groups of the right widths around the only colon match with their values. */
  lemma HourMinuteOfParts(s: string, hs: string, ms: string)
    requires Split(s, ':') == [hs, ms]
    requires 1 <= |hs| <= 2 && |ms| == 2 && AllDigits(hs) && AllDigits(ms)
    ensures HourMinute(s) == Some((DigitsValue(hs), DigitsValue(ms)))
  {
  }

  /**
   * `^(\d{1,2}):(\d{2})\s*(am|pm)$`: the period is the last two characters, the white
   * space before it is dropped, and what is left must match `HourMinute`.
   */
  function MatchAmPm(s: string): (r: Option<(nat, nat, Period)>)
    ensures r.Some? ==> r.value.0 < 100 && r.value.1 < 100
    ensures r.Some? ==> |s| >= 2 && s[|s| - 2..] == PeriodText(r.value.2)
    ensures r.Some? ==> HourMinute(s).None?
  {
    if |s| >= 2 && (s[|s| - 2..] == "am" || s[|s| - 2..] == "pm") then
      var period := if s[|s| - 2..] == "am" then Am else Pm;
      match HourMinute(TrimEnd(s[..|s| - 2]))
      case Some(g) =>
        assert s[|s| - 1] == 'm';
        HourMinuteEndsInDigit(s);
        Some((g.0, g.1, period))
      case None => None
    else None
  }

  /** Every `H:MM`, optional white space, then `am` or `pm`, matches with its own values. */
  lemma {:induction false} MatchAmPmOf(h: nat, k: nat, m: nat, ws: string, p: Period)
    requires 1 <= k <= 2 && h < Pow10(k) && m < 100 && AllSpace(ws)
    ensures MatchAmPm(FixedDigits(h, k) + ":" + FixedDigits(m, 2) + ws + PeriodText(p)) == Some((h, m, p))
  {
    var t := FixedDigits(h, k) + ":" + FixedDigits(m, 2);
    var s := t + ws + PeriodText(p);
    assert s[|s| - 2..] == PeriodText(p);
    assert s[..|s| - 2] == t + ws;
    assert t[|t| - 1] == FixedDigits(m, 2)[1];
    TrimEndSpaces(t, ws);
    HourMinuteOf(h, k, m);
    MatchAmPmParts(s, p, (h, m));
  }

  /** A text ending in the period, whose rest matches `HourMinute` once trailing white space is dropped, matches. */
  lemma MatchAmPmParts(s: string, p: Period, g: (nat, nat))
    requires |s| >= 2 && s[|s| - 2..] == PeriodText(p) && HourMinute(TrimEnd(s[..|s| - 2])) == Some(g)
    ensures MatchAmPm(s) == Some((g.0, g.1, p))
  {
    if p == Am {
      assert s[|s| - 2..] == "am";
    } else {
      assert s[|s| - 2..] == "pm" && s[|s| - 2] != "am"[0];
    }
  }

  /** A time of day rendered as the two-digit hour, a colon, and the two-digit minutes. */
  predicate IsClockText(r: string)
  {
    |r| == 5 && r[2] == ':' && AllDigits(r[..2]) && AllDigits(r[3..])
    && DigitsValue(r[..2]) <= 23 && DigitsValue(r[3..]) <= 59
  }

  /** The template `${hh.padStart(2,'0')}:${mm.padStart(2,'0')}` every branch returns. */
  function ClockText(h: nat, m: nat): (r: string)
    requires h <= 23 && m <= 59
    ensures IsClockText(r)
    ensures DigitsValue(r[..2]) == h && DigitsValue(r[3..]) == m
  {
    var r := Pad2(h) + ":" + Pad2(m);
    assert r[..2] == Pad2(h) && r[3..] == Pad2(m);
    r
  }

  /** Branch 1, lines 10-14 of test-time-parsing.js and test-final.js: hours 0..23 and minutes 0..59 are kept, anything else is null. */
  function TwentyFourHour(g: (nat, nat)): (r: Option<string>)
    ensures r.Some? <==> g.0 <= 23 && g.1 <= 59
    ensures r.Some? ==> r.value == ClockText(g.0, g.1)
  {
    if g.0 <= 23 && g.1 <= 59 then Some(ClockText(g.0, g.1)) else None
  }

  /** The 24-hour value of a 12-hour reading: `pm` adds twelve unless the hour is 12, `am` turns 12 into 0. */
  function To24Hour(h: nat, p: Period): (r: nat)
    ensures p == Pm ==> r == (if h == 12 then 12 else h + 12)
    ensures p == Am ==> r == (if h == 12 then 0 else h)
  {
    match p
    case Pm => if h != 12 then h + 12 else h
    case Am => if h == 12 then 0 else h
  }

  /**
   * Branch 2: minutes above 59 are null; otherwise the hour is converted by the period
   * and kept if it is a real hour (so `13:30 pm`, hour 25, is null).
   */
  function AmPmTime(a: (nat, nat, Period)): (r: Option<string>)
    ensures r.Some? <==> a.1 <= 59 && To24Hour(a.0, a.2) <= 23
    ensures r.Some? ==> r.value == ClockText(To24Hour(a.0, a.2), a.1)
  {
    if a.1 > 59 then None
    else
      var hour := To24Hour(a.0, a.2);
      if hour <= 23 then Some(ClockText(hour, a.1)) else None
  }

  /** The clinic-hours heuristic of test-time-parsing.js: 10 and 11 stay, 1 and 2 move to the afternoon, 12 stays. */
  function ClinicBareHour(g: (nat, nat)): (r: Option<string>)
    ensures r.Some? <==> g.1 <= 59 && g.0 in {1, 2, 10, 11, 12}
    ensures r.Some? ==> r.value == ClockText(if g.0 <= 2 then g.0 + 12 else g.0, g.1)
  {
    if g.1 > 59 then None
    else if g.0 == 10 || g.0 == 11 then Some(ClockText(g.0, g.1))
    else if g.0 == 1 || g.0 == 2 then Some(ClockText(g.0 + 12, g.1))
    else if g.0 == 12 then Some(ClockText(g.0, g.1))
    else None
  }

  /** The all-afternoon heuristic of test-final.js: 12 stays, 1 to 11 move to the afternoon, anything else is null. */
  function FinalBareHour(g: (nat, nat)): (r: Option<string>)
    ensures r.Some? <==> g.1 <= 59 && 1 <= g.0 <= 12
    ensures r.Some? ==> r.value == ClockText(if g.0 == 12 then 12 else g.0 + 12, g.1)
  {
    if g.1 > 59 then None
    else if g.0 == 12 then Some(ClockText(12, g.1))
    else if 1 <= g.0 <= 11 then Some(ClockText(g.0 + 12, g.1))
    else None
  }

  /** `timeInput.trim().toLowerCase()`. */
  function Clean(input: string): string
  {
    ToLower(Trim(input))
  }

  /** `parseFlexibleTimeInput` of test-time-parsing.js, three branches as written. */
  function ParseClinic(input: string): (r: Option<string>)
    ensures r.Some? ==> IsClockText(r.value)
  {
    var clean := Clean(input);
    match HourMinute(clean)
    case Some(g) => TwentyFourHour(g)
    case None =>
      match MatchAmPm(clean)
      case Some(a) => AmPmTime(a)
      case None =>
        match HourMinute(clean)
        case Some(g) => ClinicBareHour(g)
        case None => None
  }

  /** `parseFlexibleTimeInput` of test-final.js, three branches as written. */
  function ParseFinal(input: string): (r: Option<string>)
    ensures r.Some? ==> IsClockText(r.value)
  {
    var clean := Clean(input);
    match HourMinute(clean)
    case Some(g) => TwentyFourHour(g)
    case None =>
      match MatchAmPm(clean)
      case Some(a) => AmPmTime(a)
      case None =>
        match HourMinute(clean)
        case Some(g) => FinalBareHour(g)
        case None => None
  }

  /** The first two branches alone: what both versions actually compute. */
  function ParseTwoBranch(input: string): (r: Option<string>)
    ensures r.Some? ==> IsClockText(r.value)
  {
    var clean := Clean(input);
    match HourMinute(clean)
    case Some(g) => TwentyFourHour(g)
    case None =>
      match MatchAmPm(clean)
      case Some(a) => AmPmTime(a)
      case None => None
  }

  /** The clinic-hours branch of test-time-parsing.js is never reached. */
  lemma {:induction false} ClinicBranchUnreachable(input: string)
    ensures ParseClinic(input) == ParseTwoBranch(input)
  {
  }

  /** The all-afternoon branch of test-final.js is never reached. */
  lemma {:induction false} FinalBranchUnreachable(input: string)
    ensures ParseFinal(input) == ParseTwoBranch(input)
  {
  }

  /** The two versions agree on every input. */
  lemma {:induction false} VersionsAgree(input: string)
    ensures ParseFinal(input) == ParseClinic(input)
  {
    ClinicBranchUnreachable(input);
    FinalBranchUnreachable(input);
  }

  /** Only the cleaned text matters: leading and trailing white space and capitals change nothing. */
  lemma {:induction false} ParseSeesCleanText(input: string)
    ensures ParseTwoBranch(Clean(input)) == ParseTwoBranch(input)
  {
    CleanIdempotent(input);
  }

  /** A bare `H:MM` or `HH:MM` is read as a 24-hour time: kept zero-padded when it is one, null otherwise. */
  lemma {:induction false} BareTimeIs24Hour(input: string, h: nat, k: nat, m: nat)
    requires 1 <= k <= 2 && h < Pow10(k) && m < 100
    requires Clean(input) == FixedDigits(h, k) + ":" + FixedDigits(m, 2)
    ensures ParseTwoBranch(input) == (if h <= 23 && m <= 59 then Some(ClockText(h, m)) else None)
  {
    HourMinuteOf(h, k, m);
  }

  /** A time with its period is converted by `To24Hour` and kept only when that gives a real time. */
  lemma {:induction false} PeriodTimeIsConverted(input: string, h: nat, k: nat, m: nat, ws: string, p: Period)
    requires 1 <= k <= 2 && h < Pow10(k) && m < 100 && AllSpace(ws)
    requires Clean(input) == FixedDigits(h, k) + ":" + FixedDigits(m, 2) + ws + PeriodText(p)
    ensures ParseTwoBranch(input) ==
      (if m <= 59 && To24Hour(h, p) <= 23 then Some(ClockText(To24Hour(h, p), m)) else None)
  {
    MatchAmPmOf(h, k, m, ws, p);
  }

  /** Text matching neither expression is null. */
  lemma {:induction false} UnmatchedIsNull(input: string)
    requires HourMinute(Clean(input)).None? && MatchAmPm(Clean(input)).None?
    ensures ParseTwoBranch(input) == None
  {
  }

  /** Reading a result again gives it back unchanged. */
  lemma {:induction false} ResultRereads(input: string)
    ensures ParseTwoBranch(input).Some? ==> ParseTwoBranch(ParseTwoBranch(input).value) == ParseTwoBranch(input)
  {
    var r := ParseTwoBranch(input);
    if r.Some? {
      ClockTextRereads(r.value);
    }
  }

  lemma {:induction false} ClockTextRereads(r: string)
    requires IsClockText(r)
    ensures ParseTwoBranch(r) == Some(r)
  {
    var g := (DigitsValue(r[..2]), DigitsValue(r[3..]));
    ClockTextCleanMatches(r);
    TwentyFourHourRead(r, g);
  }

  /** Cleaning a clock text and matching it gives back its hour and minutes. */
  lemma ClockTextCleanMatches(r: string)
    requires IsClockText(r)
    ensures HourMinute(Clean(r)) == Some((DigitsValue(r[..2]), DigitsValue(r[3..])))
    ensures ClockText(DigitsValue(r[..2]), DigitsValue(r[3..])) == r
  {
    ClockTextClean(r);
    ClockTextMatches(r);
  }

  /** Text whose cleaned form is `H:MM` or `HH:MM` is read by the 24-hour branch. */
  lemma TwentyFourHourRead(input: string, g: (nat, nat))
    requires HourMinute(Clean(input)) == Some(g)
    ensures ParseTwoBranch(input) == TwentyFourHour(g)
  {
  }

  /** A clock text matches `HourMinute` with its own hour and minutes, and is their clock text. */
  lemma ClockTextMatches(r: string)
    requires IsClockText(r)
    ensures HourMinute(r) == Some((DigitsValue(r[..2]), DigitsValue(r[3..])))
    ensures ClockText(DigitsValue(r[..2]), DigitsValue(r[3..])) == r
  {
    ClockTextDigits(r);
    assert Pow10(2) == 100;
    HourMinuteOf(DigitsValue(r[..2]), 2, DigitsValue(r[3..]));
  }

  /** A clock text has no white space and no capitals. */
  lemma ClockTextClean(r: string)
    requires IsClockText(r)
    ensures Clean(r) == r
  {
    forall i | 0 <= i < |r|
      ensures LowerChar(r[i]) == r[i]
    {
      if i < 2 { assert r[i] == r[..2][i]; }
      else if i > 2 { assert r[i] == r[3..][i - 3]; }
    }
    assert r[0] == r[..2][0] && r[4] == r[3..][1];
    CleanUnchanged(r);
  }

  /** A clock text is its two digit groups around the colon. */
  lemma ClockTextDigits(r: string)
    requires IsClockText(r)
    ensures r == FixedDigits(DigitsValue(r[..2]), 2) + ":" + FixedDigits(DigitsValue(r[3..]), 2)
  {
    DigitsOfValue(r[..2]);
    DigitsOfValue(r[3..]);
  }

  /**
   * The reader test-final.js intends: a bare time with hour 1 to 12 goes through the
   * all-afternoon heuristic, any other bare time is a 24-hour time, and a time with its
   * period is read as before.
   */
  function ParseTime(input: string): (r: Option<string>)
    ensures r.Some? ==> IsClockText(r.value)
  {
    var clean := Clean(input);
    match HourMinute(clean)
    case Some(g) => if 1 <= g.0 <= 12 then FinalBareHour(g) else TwentyFourHour(g)
    case None =>
      match MatchAmPm(clean)
      case Some(a) => AmPmTime(a)
      case None => None
  }

  /** A bare hour 1 to 12 goes through the all-afternoon heuristic. */
  lemma {:induction false} BareHourIsAfternoon(input: string, h: nat, k: nat, m: nat)
    requires 1 <= k <= 2 && h < Pow10(k) && m < 100 && 1 <= h <= 12
    requires Clean(input) == FixedDigits(h, k) + ":" + FixedDigits(m, 2)
    ensures ParseTime(input) == FinalBareHour((h, m))
  {
    HourMinuteOf(h, k, m);
  }

  /** Bare hours 0 and 13 to 23, and every time with a period, read as the code as written reads them. */
  lemma {:induction false} ParseTimeElsewhereAsWritten(input: string)
    requires HourMinute(Clean(input)).Some? ==> !(1 <= HourMinute(Clean(input)).value.0 <= 12)
    ensures ParseTime(input) == ParseFinal(input)
  {
    FinalBranchUnreachable(input);
  }

  /* Worked examples. Each input text is first cleaned, then spelled as digit groups. */

  /** Texts whose ends are not white space and whose characters lower to `t`: cleaning gives `t`. */
  lemma {:induction false} CleanOf(s: string, t: string)
    requires s != [] && !IsJsSpace(s[0]) && !IsJsSpace(s[|s| - 1])
    requires |t| == |s| && forall i :: 0 <= i < |s| ==> LowerChar(s[i]) == t[i]
    ensures Clean(s) == t
  {
    assert TrimStart(s) == s;
    assert TrimEnd(s) == s;
  }

  lemma OneThirtyText()
    ensures FixedDigits(1, 1) + ":" + FixedDigits(30, 2) == "1:30"
  {
    FixedDigitsSpelled(1, 0, 1);
    FixedDigitsSpelled(30, 3, 0);
    DigitCharsSpelled();
  }

  lemma OneThirtyAmText()
    ensures FixedDigits(1, 1) + ":" + FixedDigits(30, 2) + " " + PeriodText(Am) == "1:30 am"
  {
    OneThirtyText();
  }

  lemma OneThirtyClocks()
    ensures ClockText(1, 30) == "01:30" && ClockText(13, 30) == "13:30"
  {
    OneThirtyClock();
    ThirteenThirtyText();
  }

  lemma OneThirtyClock()
    ensures ClockText(1, 30) == "01:30"
  {
    FixedDigitsSpelled(1, 0, 1);
    FixedDigitsSpelled(30, 3, 0);
    DigitCharsSpelled();
  }

  lemma TwelveText()
    ensures FixedDigits(12, 2) + ":" + FixedDigits(0, 2) + " " + PeriodText(Am) == "12:00 am"
    ensures ClockText(0, 0) == "00:00"
  {
    FixedDigitsSpelled(12, 1, 2);
    FixedDigitsSpelled(0, 0, 0);
    DigitCharsSpelled();
  }

  lemma LateText()
    ensures FixedDigits(13, 2) + ":" + FixedDigits(30, 2) == "13:30"
    ensures FixedDigits(13, 2) + ":" + FixedDigits(30, 2) + " " + PeriodText(Pm) == "13:30 pm"
    ensures FixedDigits(10, 2) + ":" + FixedDigits(30, 2) == "10:30"
    ensures ClockText(22, 30) == "22:30"
  {
    ThirteenThirtyText();
    TenThirtyText();
    TwentyTwoThirtyText();
  }

  lemma ThirteenThirtyText()
    ensures FixedDigits(13, 2) + ":" + FixedDigits(30, 2) == "13:30"
    ensures FixedDigits(13, 2) + ":" + FixedDigits(30, 2) + " " + PeriodText(Pm) == "13:30 pm"
  {
    FixedDigitsSpelled(13, 1, 3);
    FixedDigitsSpelled(30, 3, 0);
    DigitCharsSpelled();
    assert FixedDigits(13, 2) + ":" + FixedDigits(30, 2) == "13:30";
  }

  lemma TenThirtyText()
    ensures FixedDigits(10, 2) + ":" + FixedDigits(30, 2) == "10:30"
  {
    FixedDigitsSpelled(10, 1, 0);
    FixedDigitsSpelled(30, 3, 0);
    DigitCharsSpelled();
  }

  lemma TwentyTwoThirtyText()
    ensures ClockText(22, 30) == "22:30"
  {
    FixedDigitsSpelled(22, 2, 2);
    FixedDigitsSpelled(30, 3, 0);
    DigitCharsSpelled();
  }

  lemma OneThirtySpelled()
    ensures Clean("1:30") == FixedDigits(1, 1) + ":" + FixedDigits(30, 2)
  {
    CleanOf("1:30", "1:30");
    OneThirtyText();
  }

  lemma OneThirtyAmSpelled()
    ensures Clean("1:30 am") == FixedDigits(1, 1) + ":" + FixedDigits(30, 2) + " " + PeriodText(Am)
  {
    CleanOf("1:30 am", "1:30 am");
    OneThirtyAmText();
  }

  lemma TwelveAmSpelled()
    ensures Clean("12:00 am") == FixedDigits(12, 2) + ":" + FixedDigits(0, 2) + " " + PeriodText(Am)
  {
    CleanOf("12:00 am", "12:00 am");
    TwelveText();
  }

  lemma TwelveAmUpperSpelled()
    ensures Clean("12:00 AM") == FixedDigits(12, 2) + ":" + FixedDigits(0, 2) + " " + PeriodText(Am)
  {
    CleanOf("12:00 AM", "12:00 am");
    TwelveText();
  }

  lemma LatePmSpelled()
    ensures Clean("13:30 pm") == FixedDigits(13, 2) + ":" + FixedDigits(30, 2) + " " + PeriodText(Pm)
  {
    CleanOf("13:30 pm", "13:30 pm");
    LateText();
  }

  lemma TenThirtySpelled()
    ensures Clean("10:30") == FixedDigits(10, 2) + ":" + FixedDigits(30, 2)
  {
    CleanOf("10:30", "10:30");
    LateText();
  }

  lemma ThirteenThirtySpelled()
    ensures Clean("13:30") == FixedDigits(13, 2) + ":" + FixedDigits(30, 2)
  {
    CleanOf("13:30", "13:30");
    LateText();
  }

  /** "1:30" is read as 01:30, not the 13:30 that test-time-parsing.js:102 and test-final.js:69 expect. */
  lemma BareOneThirtyIsMorning()
    ensures ParseClinic("1:30") == Some("01:30")
    ensures ParseFinal("1:30") == Some("01:30")
  {
    OneThirtySpelled();
    BareTimeIs24Hour("1:30", 1, 1, 30);
    ClinicBranchUnreachable("1:30");
    FinalBranchUnreachable("1:30");
    OneThirtyClocks();
  }

  /** "12:00 am" is midnight (test-final.js:29-30, 75). */
  lemma TwelveAmIsMidnight()
    ensures ParseFinal("12:00 am") == Some("00:00")
  {
    assert AllSpace(" ");
    TwelveAmSpelled();
    PeriodTimeIsConverted("12:00 am", 12, 2, 0, " ", Am);
    FinalBranchUnreachable("12:00 am");
    TwelveText();
  }

  lemma OneThirtyAmReads()
    ensures ParseTwoBranch("1:30 am") == Some(ClockText(1, 30))
  {
    assert AllSpace(" ");
    OneThirtyAmSpelled();
    PeriodTimeIsConverted("1:30 am", 1, 1, 30, " ", Am);
  }

  /** "1:30 am" is 01:30 (test-final.js:29-30, 70). */
  lemma OneThirtyAmIsMorning()
    ensures ParseFinal("1:30 am") == Some("01:30")
  {
    OneThirtyAmReads();
    FinalBranchUnreachable("1:30 am");
    OneThirtyClocks();
  }

  /** "13:30 pm" would be hour 25 and is null. */
  lemma LatePmIsNull()
    ensures ParseClinic("13:30 pm") == None
  {
    LatePmSpelled();
    ThirteenPmIsNull("13:30 pm");
  }

  lemma ThirteenPmIsNull(input: string)
    requires Clean(input) == FixedDigits(13, 2) + ":" + FixedDigits(30, 2) + " " + PeriodText(Pm)
    ensures ParseClinic(input) == None
  {
    assert AllSpace(" ") && Pow10(2) == 100;
    PeriodTimeIsConverted(input, 13, 2, 30, " ", Pm);
    assert To24Hour(13, Pm) == 25;
    ClinicBranchUnreachable(input);
  }

  /** The intended reader meets test-final.js:69: "1:30" is 13:30. */
  lemma IntendedOneThirty()
    ensures ParseTime("1:30") == Some("13:30")
  {
    OneThirtySpelled();
    BareHourIsAfternoon("1:30", 1, 1, 30);
    OneThirtyClocks();
  }

  /** The intended reader meets test-final.js:72: "10:30" is 22:30. */
  lemma IntendedTenThirty()
    ensures ParseTime("10:30") == Some("22:30")
  {
    TenThirtySpelled();
    BareHourIsAfternoon("10:30", 10, 2, 30);
    LateText();
  }

  /** The intended reader meets test-final.js:76: "13:30" stays a 24-hour time. */
  lemma IntendedThirteenThirty()
    ensures ParseTime("13:30") == Some("13:30")
  {
    ThirteenThirtySpelled();
    BareTimeIs24Hour("13:30", 13, 2, 30);
    ParseTimeElsewhereAsWritten("13:30");
    FinalBranchUnreachable("13:30");
    OneThirtyClocks();
  }

  /** "12:00 AM" is still midnight, with the capitals lowered first (test-final.js:75). */
  lemma IntendedMidnight()
    ensures ParseTime("12:00 AM") == Some("00:00")
  {
    assert AllSpace(" ");
    TwelveAmUpperSpelled();
    PeriodTimeIsConverted("12:00 AM", 12, 2, 0, " ", Am);
    ParseTimeElsewhereAsWritten("12:00 AM");
    FinalBranchUnreachable("12:00 AM");
    TwelveText();
  }
}
