/** Civil dates and wall-clock times as Python's `datetime` module handles
    them in `to_dt` and `monday_alarm_for`: proleptic Gregorian dates in
    years 1..9999, day ordinals with 0001-01-01 as day 1, weekdays with
    Monday as 0, and `int(...)` parsing of `HH:MM` clock strings. */
module Civil {
  import opened Wrappers

  datatype Date = Date(year: int, month: int, day: int)

  datatype Clock = Clock(hour: int, minute: int)

  /** A zone-local datetime. Every datetime of the scraper carries the same
      `tzinfo`, so the zone itself plays no part in the model. */
  datatype DateTime = DateTime(date: Date, time: Clock)

  /** Why `to_dt` or `monday_alarm_for` raised. */
  datatype DateError = BadDate | BadTime | BadAlarmTime

  const MinYear := 1
  const MaxYear := 9999
  const MinutesPerDay := 1440

  predicate IsLeap(y: int) {
    y % 4 == 0 && (y % 100 != 0 || y % 400 == 0)
  }

  function DaysInMonth(y: int, m: int): int
    requires 1 <= m <= 12
  {
    if m == 2 then (if IsLeap(y) then 29 else 28)
    else if m == 4 || m == 6 || m == 9 || m == 11 then 30
    else 31
  }

  /** The dates `datetime.date` can represent. */
  predicate ValidDate(d: Date) {
    MinYear <= d.year <= MaxYear && 1 <= d.month <= 12 && 1 <= d.day <= DaysInMonth(d.year, d.month)
  }

  predicate ValidClock(c: Clock) {
    0 <= c.hour <= 23 && 0 <= c.minute <= 59
  }

  predicate ValidDateTime(dt: DateTime) {
    ValidDate(dt.date) && ValidClock(dt.time)
  }

  // ---------------------------------------------------------------------
  // Day ordinals and weekdays

  function DaysInYear(y: int): int {
    if IsLeap(y) then 366 else 365
  }

  /** The days of the years before `y`, counted from year 1. */
  function DaysBeforeYear(y: int): nat
    decreases y
  {
    if y <= 1 then 0 else DaysBeforeYear(y - 1) + DaysInYear(y - 1)
  }

  function DaysBeforeMonth(y: int, m: int): int
    requires 1 <= m <= 12
  {
    [0, 31, 59, 90, 120, 151, 181, 212, 243, 273, 304, 334][m - 1]
    + (if m > 2 && IsLeap(y) then 1 else 0)
  }

  /** `date.toordinal()`: 0001-01-01 is day 1. */
  function Ordinal(d: Date): int
    requires ValidDate(d)
  {
    DaysBeforeYear(d.year) + DaysBeforeMonth(d.year, d.month) + d.day
  }

  /** `date.weekday()`: Monday is 0 and Sunday is 6. */
  function Weekday(d: Date): (w: int)
    requires ValidDate(d)
    ensures 0 <= w < 7
  {
    (Ordinal(d) + 6) % 7
  }

  /** The day count agrees with the closed form of Python's
      `_days_before_year`: 365 days a year plus one for every fourth year,
      less the centuries, plus every fourth century. */
  lemma {:induction false} DaysBeforeYearClosedForm(y: int)
    requires y >= 1
    ensures var p := y - 1; DaysBeforeYear(y) == p * 365 + p / 4 - p / 100 + p / 400
    decreases y
  {
    if y > 1 {
      DaysBeforeYearClosedForm(y - 1);
      LeapCountStep(y - 1);
    }
  }

  /** Year `p` adds one leap day to the count of years before it exactly
      when it adds one to the multiples of 4 and of 400 more than to those
      of 100. */
  lemma LeapCountStep(p: int)
    requires p >= 1
    ensures DaysInYear(p) - 365
      == (p / 4 - (p - 1) / 4) - (p / 100 - (p - 1) / 100) + (p / 400 - (p - 1) / 400)
  {
    var q := p - 1;
    assert p / 4 == q / 4 + (if p % 4 == 0 then 1 else 0);
    assert p / 100 == q / 100 + (if p % 100 == 0 then 1 else 0);
    assert p / 400 == q / 400 + (if p % 400 == 0 then 1 else 0);
    assert p % 100 == 0 ==> p % 4 == 0;
    assert p % 400 == 0 ==> p % 100 == 0;
  }

  /** The first day has ordinal 1, and every later day a larger one. */
  lemma OrdinalPositive(d: Date)
    requires ValidDate(d)
    ensures Ordinal(d) >= 1
    ensures Ordinal(d) == 1 <==> d == Date(1, 1, 1)
  {
  }

  /** The day before `d` in the calendar. */
  function PrevDay(d: Date): (r: Date)
    requires ValidDate(d) && d != Date(1, 1, 1)
    ensures ValidDate(r) && Ordinal(r) == Ordinal(d) - 1
  {
    if d.day > 1 then
      Date(d.year, d.month, d.day - 1)
    else if d.month > 1 then
      LastOfMonth(d.year, d.month - 1);
      Date(d.year, d.month - 1, DaysInMonth(d.year, d.month - 1))
    else
      LastOfYear(d.year - 1);
      Date(d.year - 1, 12, 31)
  }

  /** The last day of month `m` comes just before the first of month `m + 1`. */
  lemma LastOfMonth(y: int, m: int)
    requires MinYear <= y <= MaxYear && 1 <= m < 12
    ensures ValidDate(Date(y, m, DaysInMonth(y, m)))
    ensures Ordinal(Date(y, m, DaysInMonth(y, m))) + 1 == Ordinal(Date(y, m + 1, 1))
  {
    MonthBoundary(y, m);
  }

  /** 31 December of year `y` comes just before 1 January of year `y + 1`. */
  lemma LastOfYear(y: int)
    requires MinYear <= y < MaxYear
    ensures ValidDate(Date(y, 12, 31))
    ensures Ordinal(Date(y, 12, 31)) + 1 == Ordinal(Date(y + 1, 1, 1))
  {
    calc {
      Ordinal(Date(y + 1, 1, 1));
      DaysBeforeYear(y + 1) + DaysBeforeMonth(y + 1, 1) + 1;
      DaysBeforeYear(y + 1) + 1;
      { YearBoundary(y); }
      DaysBeforeYear(y) + DaysBeforeMonth(y, 12) + 31 + 1;
      Ordinal(Date(y, 12, 31)) + 1;
    }
  }

  /** Month `m + 1` starts the day after month `m` ends. */
  lemma MonthBoundary(y: int, m: int)
    requires 1 <= m < 12
    ensures DaysBeforeMonth(y, m + 1) == DaysBeforeMonth(y, m) + DaysInMonth(y, m)
  {
    if m == 1 {} else if m == 2 {} else if m == 3 {} else if m == 4 {} else if m == 5 {}
    else if m == 6 {} else if m == 7 {} else if m == 8 {} else if m == 9 {} else if m == 10 {}
  }

  /** Year `y + 1` starts the day after 31 December of year `y`. */
  lemma YearBoundary(y: int)
    requires y >= 1
    ensures DaysBeforeYear(y + 1) == DaysBeforeYear(y) + DaysBeforeMonth(y, 12) + 31
  {
  }

  /** `d - timedelta(days=k)`, for a `k` that stays within the calendar. */
  function SubDays(d: Date, k: nat): (r: Date)
    requires ValidDate(d) && k < Ordinal(d)
    ensures ValidDate(r) && Ordinal(r) == Ordinal(d) - k
    decreases k
  {
    if k == 0 then d
    else
      OrdinalPositive(d);
      SubDays(PrevDay(d), k - 1)
  }

  /** The Monday of a day's week lies after day 0. */
  lemma WeekdayWithinOrdinal(o: int)
    requires o >= 1
    ensures 0 <= (o + 6) % 7 < o
  {
    if o < 7 {
      assert (o + 6) % 7 == o - 1;
    }
  }

  /** Going back `k` days moves the weekday back `k` places. */
  lemma WeekdayShift(o: int, k: int)
    requires 0 <= k <= (o + 6) % 7
    ensures (o - k + 6) % 7 == (o + 6) % 7 - k
  {
    var q := (o + 6) / 7;
    assert o + 6 == 7 * q + (o + 6) % 7;
    assert o - k + 6 == 7 * q + ((o + 6) % 7 - k);
  }

  /** The day `(o + 6) % 7` places before day `o` is a Monday. */
  lemma WeekOfOrdinal(o: int, m: int)
    requires m == o - (o + 6) % 7
    ensures (m + 6) % 7 == 0
  {
    WeekdayShift(o, (o + 6) % 7);
  }

  /** `dt.date() - timedelta(days=dt.weekday())`: the Monday that starts the
      week of `d`. It never leaves the calendar, because 0001-01-01 was a
      Monday. */
  function MondayOf(d: Date): (r: Date)
    requires ValidDate(d)
    ensures ValidDate(r) && Weekday(r) == 0
    ensures Ordinal(r) == Ordinal(d) - Weekday(d)
    ensures Ordinal(d) - 6 <= Ordinal(r) <= Ordinal(d)
  {
    WeekdayBelowOrdinal(d);
    var r := SubDays(d, Weekday(d));
    BackToMonday(d, r);
    r
  }

  /** A day's weekday is smaller than its ordinal. */
  lemma WeekdayBelowOrdinal(d: Date)
    requires ValidDate(d)
    ensures 0 <= Weekday(d) < Ordinal(d)
  {
    OrdinalPositive(d);
    WeekdayWithinOrdinal(Ordinal(d));
  }

  /** The day `weekday()` days back is a Monday of the same week. */
  lemma BackToMonday(d: Date, r: Date)
    requires ValidDate(d) && ValidDate(r)
    requires Ordinal(r) == Ordinal(d) - Weekday(d)
    ensures Weekday(r) == 0
    ensures Ordinal(d) - 6 <= Ordinal(r) <= Ordinal(d)
  {
    var o := Ordinal(d);
    WeekdayWithinOrdinal(o);
    WeekOfOrdinal(o, Ordinal(r));
  }

  // ---------------------------------------------------------------------
  // Parsing

  predicate IsDigit(c: char) {
    '0' <= c <= '9'
  }

  predicate AllDigits(s: string) {
    forall i :: 0 <= i < |s| ==> IsDigit(s[i])
  }

  /** `int(s)` for a string of ASCII decimal digits. */
  function Decimal(s: string): (n: nat)
    requires AllDigits(s)
  {
    if s == [] then 0 else Decimal(s[..|s| - 1]) * 10 + DigitValue(s[|s| - 1])
  }

  function DigitValue(c: char): int {
    c as int - '0' as int
  }

  /** The value of a one-, two- or four-digit string, digit by digit. */
  lemma DecimalShort(s: string)
    requires AllDigits(s) && 1 <= |s| <= 4
    ensures |s| == 1 ==> Decimal(s) == DigitValue(s[0])
    ensures |s| == 2 ==> Decimal(s) == DigitValue(s[0]) * 10 + DigitValue(s[1])
    ensures |s| == 4 ==> Decimal(s) == DigitValue(s[0]) * 1000 + DigitValue(s[1]) * 100
                                       + DigitValue(s[2]) * 10 + DigitValue(s[3])
  {
    assert s[..1][..0] == [];
    if |s| >= 2 {
      assert s[..2][..1] == s[..1];
    }
    if |s| == 4 {
      assert s[..3][..2] == s[..2];
      assert s[..3][..1] == s[..1];
    }
  }

  /** `datetime.strptime(s, "%d.%m.%Y").date()` on the `dd.mm.yyyy` shape:
      None where Python raises, because a field is not a valid day, month
      or year of the calendar. */
  function ParseDate(s: string): (r: Option<Date>)
    ensures r.Some? ==> ValidDate(r.value) && |s| == 10 && s[2] == '.' && s[5] == '.'
  {
    if |s| == 10 && s[2] == '.' && s[5] == '.'
       && AllDigits(s[..2]) && AllDigits(s[3..5]) && AllDigits(s[6..]) then
      var d := Date(Decimal(s[6..]), Decimal(s[3..5]), Decimal(s[..2]));
      if ValidDate(d) then Some(d) else None
    else
      None
  }

  /** Position of the first `':'` in `s`. */
  function FindColon(s: string): (r: Option<nat>)
    ensures r.Some? ==> r.value < |s| && s[r.value] == ':'
    ensures r.Some? ==> forall i :: 0 <= i < r.value ==> s[i] != ':'
    ensures r.None? ==> forall i :: 0 <= i < |s| ==> s[i] != ':'
  {
    if s == [] then None
    else if s[0] == ':' then Some(0)
    else match FindColon(s[1..])
      case None => None
      case Some(i) => Some(i + 1)
  }

  /** `hh, mm = map(int, s.split(":"))` followed by the range check that
      `datetime(...)` makes: exactly one colon, a decimal number on each
      side, an hour in 0..23 and a minute in 0..59. */
  function ParseClock(s: string): (r: Option<Clock>)
    ensures r.Some? ==> ValidClock(r.value)
  {
    match FindColon(s)
    case None => None
    case Some(i) =>
      var hs, ms := s[..i], s[i + 1..];
      if hs != [] && ms != [] && AllDigits(hs) && AllDigits(ms) then
        var c := Clock(Decimal(hs), Decimal(ms));
        if ValidClock(c) then Some(c) else None
      else
        None
  }

  // ---------------------------------------------------------------------
  // The canonical text forms, the inverses of the parsers

  function Digit(n: nat): char
    requires n < 10
  {
    ('0' as int + n) as char
  }

  function TwoDigits(n: nat): string
    requires n < 100
  {
    [Digit(n / 10), Digit(n % 10)]
  }

  function FourDigits(n: nat): string
    requires n < 10000
  {
    var tens := n / 10;
    var hundreds := tens / 10;
    [Digit(hundreds / 10), Digit(hundreds % 10), Digit(tens % 10), Digit(n % 10)]
  }

  /** `d.strftime("%d.%m.%Y")`. */
  function FormatDate(d: Date): string
    requires ValidDate(d)
  {
    TwoDigits(d.day) + "." + TwoDigits(d.month) + "." + FourDigits(d.year)
  }

  /** `f"{c.hour:02d}:{c.minute:02d}"`. */
  function FormatClock(c: Clock): string
    requires ValidClock(c)
  {
    TwoDigits(c.hour) + ":" + TwoDigits(c.minute)
  }

  lemma DivMod10(x: int, q: int, r: int)
    requires x == q * 10 + r && 0 <= r < 10
    ensures x / 10 == q && x % 10 == r
  {
  }

  /** A digit character is the digit of its own value. */
  lemma DigitOfChar(c: char)
    requires IsDigit(c)
    ensures 0 <= DigitValue(c) < 10 && Digit(DigitValue(c)) == c
  {
  }

  lemma DigitRoundTrip(n: nat)
    requires n < 10
    ensures IsDigit(Digit(n)) && DigitValue(Digit(n)) == n
  {
  }

  lemma DecimalTwoDigits(n: nat)
    requires n < 100
    ensures AllDigits(TwoDigits(n)) && Decimal(TwoDigits(n)) == n
  {
    DigitRoundTrip(n / 10);
    DigitRoundTrip(n % 10);
    DecimalShort(TwoDigits(n));
  }

  lemma DecimalFourDigits(n: nat)
    requires n < 10000
    ensures AllDigits(FourDigits(n)) && Decimal(FourDigits(n)) == n
  {
    var tens := n / 10;
    var hundreds := tens / 10;
    DigitRoundTrip(hundreds / 10);
    DigitRoundTrip(hundreds % 10);
    DigitRoundTrip(tens % 10);
    DigitRoundTrip(n % 10);
    DecimalShort(FourDigits(n));
    assert n == tens * 10 + n % 10;
    assert tens == hundreds * 10 + tens % 10;
    assert hundreds == hundreds / 10 * 10 + hundreds % 10;
  }

  /** A two-digit string is the canonical form of its own value. */
  lemma TwoDigitsOfDecimal(s: string)
    requires |s| == 2 && AllDigits(s)
    ensures Decimal(s) < 100 && TwoDigits(Decimal(s)) == s
  {
    DecimalShort(s);
    var a, b := DigitValue(s[0]), DigitValue(s[1]);
    assert 0 <= a < 10 && 0 <= b < 10;
    assert (a * 10 + b) / 10 == a && (a * 10 + b) % 10 == b;
  }

  /** Four digits written as a number come back out digit by digit. */
  lemma FourDigitsOfValue(a: nat, b: nat, c: nat, e: nat)
    requires a < 10 && b < 10 && c < 10 && e < 10
    ensures FourDigits(a * 1000 + b * 100 + c * 10 + e) == [Digit(a), Digit(b), Digit(c), Digit(e)]
  {
    var v := a * 1000 + b * 100 + c * 10 + e;
    DivMod10(v, a * 100 + b * 10 + c, e);
    DivMod10(a * 100 + b * 10 + c, a * 10 + b, c);
    DivMod10(a * 10 + b, a, b);
    DivMod10(a, 0, a);
  }

  /** A four-digit string is the canonical form of its own value. */
  lemma FourDigitsOfDecimal(s: string)
    requires |s| == 4 && AllDigits(s)
    ensures Decimal(s) < 10000 && FourDigits(Decimal(s)) == s
  {
    DecimalShort(s);
    DigitOfChar(s[0]);
    DigitOfChar(s[1]);
    DigitOfChar(s[2]);
    DigitOfChar(s[3]);
    FourDigitsOfValue(DigitValue(s[0]), DigitValue(s[1]), DigitValue(s[2]), DigitValue(s[3]));
    assert [s[0], s[1], s[2], s[3]] == s;
  }

  /** Parsing accepts exactly the canonical `dd.mm.yyyy` forms of the valid
      dates, and gives back the date each one names. */
  lemma ParseDateExactlyFormatted(s: string, d: Date)
    ensures ParseDate(s) == Some(d) <==> ValidDate(d) && s == FormatDate(d)
  {
    if ValidDate(d) && s == FormatDate(d) {
      FormattedDateParses(d);
    }
    if ParseDate(s) == Some(d) {
      ParsedDateIsFormatted(s);
    }
  }

  /** The fields of a `dd.mm.yyyy` string sit at fixed positions. */
  lemma DottedFields(a: string, b: string, c: string)
    requires |a| == 2 && |b| == 2 && |c| == 4
    ensures var s := a + "." + b + "." + c;
      |s| == 10 && s[2] == '.' && s[5] == '.' && s[..2] == a && s[3..5] == b && s[6..] == c
  {
  }

  lemma FormattedDateParses(d: Date)
    requires ValidDate(d)
    ensures ParseDate(FormatDate(d)) == Some(d)
  {
    DecimalTwoDigits(d.day);
    DecimalTwoDigits(d.month);
    DecimalFourDigits(d.year);
    DottedFields(TwoDigits(d.day), TwoDigits(d.month), FourDigits(d.year));
  }

  lemma ParsedDateIsFormatted(s: string)
    requires ParseDate(s).Some?
    ensures s == FormatDate(ParseDate(s).value)
  {
    TwoDigitsOfDecimal(s[..2]);
    TwoDigitsOfDecimal(s[3..5]);
    FourDigitsOfDecimal(s[6..]);
    DottedFields(s[..2], s[3..5], s[6..]);
    assert s == s[..2] + "." + s[3..5] + "." + s[6..];
  }

  /** `map(int, s.split(":"))` unpacked into two names: a text that parses
      is two non-empty runs of digits around its only colon, and names the
      clock of their values. Anything else (no colon, a second colon, an
      empty or non-digit part) makes Python raise, and is rejected here. */
  lemma ParseClockShape(s: string)
    ensures ParseClock(s).Some? ==>
      exists i :: 0 < i < |s| - 1 && s[i] == ':' && AllDigits(s[..i]) && AllDigits(s[i + 1..])
                  && ParseClock(s).value == Clock(Decimal(s[..i]), Decimal(s[i + 1..]))
  {
    if ParseClock(s).Some? {
      var i := FindColon(s).value;
      assert 0 < i < |s| - 1 && s[i] == ':' && AllDigits(s[..i]) && AllDigits(s[i + 1..]);
    }
  }

  /** `h, m = map(int, s.split(":"))` and then `datetime(..., h, m)`: two
      runs of digits around a colon name the clock of their values, and the
      text parses exactly when that clock is valid, so an hour of 24 or more
      or a minute of 60 or more is rejected. */
  lemma ParseClockFields(hs: string, ms: string, c: Clock)
    requires hs != [] && ms != [] && AllDigits(hs) && AllDigits(ms)
    ensures ParseClock(hs + ":" + ms) == Some(c) <==> c == Clock(Decimal(hs), Decimal(ms)) && ValidClock(c)
  {
    var s := hs + ":" + ms;
    forall i | 0 <= i < |hs|
      ensures s[i] != ':'
    {
      assert s[i] == hs[i];
    }
    assert s[|hs|] == ':';
    assert FindColon(s) == Some(|hs|);
    assert s[..|hs|] == hs;
    assert s[|hs| + 1..] == ms;
  }

  /** An `HH:MM` text parses to a clock exactly when the clock is valid and
      the text is its zero-padded form. */
  lemma ParseClockExactlyFormatted(s: string, c: Clock)
    requires |s| == 5 && s[2] == ':' && AllDigits(s[..2]) && AllDigits(s[3..])
    ensures ParseClock(s) == Some(c) <==> ValidClock(c) && s == FormatClock(c)
  {
    assert s == s[..2] + ":" + s[3..];
    ParseClockFields(s[..2], s[3..], c);
    if ValidClock(c) && s == FormatClock(c) {
      ParseClockFormatted(c);
    }
    if ParseClock(s) == Some(c) {
      TwoDigitsOfDecimal(s[..2]);
      TwoDigitsOfDecimal(s[3..]);
    }
  }

  /** Every valid clock reads back from its `HH:MM` form. */
  lemma ParseClockFormatted(c: Clock)
    requires ValidClock(c)
    ensures ParseClock(FormatClock(c)) == Some(c)
  {
    var s := FormatClock(c);
    DecimalTwoDigits(c.hour);
    DecimalTwoDigits(c.minute);
    assert s[2] == ':' && s[0] != ':' && s[1] != ':';
    assert FindColon(s) == Some(2);
    assert s[..2] == TwoDigits(c.hour);
    assert s[3..] == TwoDigits(c.minute);
  }

  // ---------------------------------------------------------------------
  // to_dt and monday_alarm_for

  /** Python's truthiness of the optional time string: None and "" are
      false. */
  predicate HasTime(time: Option<string>) {
    time.Some? && time.value != ""
  }

  /** `to_dt(date_s, time_s)` (scrape_to_ics.py:57-62): the match's local
      start, or midnight of its date when no time is given; an error where
      Python raises. */
  function ToDt(date: string, time: Option<string>): (r: Result<DateTime, DateError>)
    ensures r.Ok? ==> ValidDateTime(r.value)
    ensures r.Ok? <==> ParseDate(date).Some? && (HasTime(time) ==> ParseClock(time.value).Some?)
    ensures r.Ok? ==> r.value.date == ParseDate(date).value
    ensures r.Ok? && HasTime(time) ==> r.value.time == ParseClock(time.value).value
    ensures r.Ok? && !HasTime(time) ==> r.value.time == Clock(0, 0)
    ensures r == Err(BadDate) <==> ParseDate(date).None?
  {
    match ParseDate(date)
    case None => Err(BadDate)
    case Some(d) =>
      if HasTime(time) then
        match ParseClock(time.value)
        case None => Err(BadTime)
        case Some(c) => Ok(DateTime(d, c))
      else
        Ok(DateTime(d, Clock(0, 0)))
  }

  /** `monday_alarm_for(dt_local, alarm_time)` (scrape_to_ics.py:67-70):
      the configured clock time on the Monday of the week of `dt`, which is
      that same day or one of the six before it; an error where parsing the
      alarm time raises. */
  function MondayAlarmFor(dt: DateTime, alarmTime: string): (r: Result<DateTime, DateError>)
    requires ValidDate(dt.date)
    ensures r.Ok? <==> ParseClock(alarmTime).Some?
    ensures r.Err? ==> r.error == BadAlarmTime
    ensures r.Ok? ==> ValidDateTime(r.value) && Weekday(r.value.date) == 0
    ensures r.Ok? ==> Ordinal(dt.date) - 6 <= Ordinal(r.value.date) <= Ordinal(dt.date)
    ensures r.Ok? ==> r.value.time == ParseClock(alarmTime).value
  {
    match ParseClock(alarmTime)
    case None => Err(BadAlarmTime)
    case Some(c) => Ok(DateTime(MondayOf(dt.date), c))
  }

  /** Minutes since 0001-01-01 00:00 on the local wall clock. Subtracting
      two datetimes that share their `tzinfo` subtracts these. */
  function WallMinutes(dt: DateTime): int
    requires ValidDate(dt.date)
  {
    Ordinal(dt.date) * MinutesPerDay + dt.time.hour * 60 + dt.time.minute
  }

  function MinuteOfDay(c: Clock): int {
    c.hour * 60 + c.minute
  }

  /** The alarm trigger `alarm_dt - start_ref` of an event on date `d` that
      starts at clock `start`: the difference of the two clock times, less
      one day for each day the match lies after its Monday. It is positive
      exactly when the match is on a Monday and starts before the alarm
      time. */
  lemma AlarmOffset(d: Date, start: Clock, alarm: Clock)
    requires ValidDate(d) && ValidClock(start) && ValidClock(alarm)
    ensures
      var offset := WallMinutes(DateTime(MondayOf(d), alarm))
                    - WallMinutes(DateTime(d, start));
      && offset == MinuteOfDay(alarm) - MinuteOfDay(start) - Weekday(d) * MinutesPerDay
      && (offset > 0 <==> Weekday(d) == 0 && MinuteOfDay(alarm) > MinuteOfDay(start))
      && -7 * MinutesPerDay < offset < MinutesPerDay
  {
  }
}
