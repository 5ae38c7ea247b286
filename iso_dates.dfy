/** Calendar dates written "YYYY-MM-DD", as bookings store them, and the
    local date-time `new Date(`${date}T${time}`)` makes of a booking's date
    and "HH:MM" start time. */
module IsoDates {
  import opened Collections
  import opened Text
  import opened Calendar
  import opened TimeSlotUtils

  /** Four year digits, '-', two month digits, '-', two day digits. */
  predicate IsDateShape(s: string) {
    |s| == 10 && AllDigits(s[..4]) && s[4] == '-' && AllDigits(s[5..7]) &&
    s[7] == '-' && AllDigits(s[8..])
  }

  function YearField(s: string): nat
    requires IsDateShape(s)
  {
    DecimalValue(s[..4])
  }

  function MonthField(s: string): (m: nat)
    requires IsDateShape(s)
    ensures m < 100
  {
    TwoDigitValue(s[5..7]);
    DecimalValue(s[5..7])
  }

  function DayField(s: string): (d: nat)
    requires IsDateShape(s)
    ensures d < 100
  {
    TwoDigitValue(s[8..]);
    DecimalValue(s[8..])
  }

  /** A date text that names a day of the calendar. */
  predicate IsDateText(s: string) {
    IsDateShape(s) && ValidCivil(Civil(YearField(s), MonthField(s), DayField(s)))
  }

  /** The three fields read as one number, most significant first. */
  function DateKey(s: string): nat
    requires IsDateShape(s)
  {
    YearField(s) * 10000 + MonthField(s) * 100 + DayField(s)
  }

  /** Comparing two date texts as strings, as `<` and `>=` on them do,
      compares their fields in the order year, month, day. */
  lemma DateTextOrder(a: string, b: string)
    requires IsDateShape(a) && IsDateShape(b)
    ensures StrLess(a, b) <==> DateKey(a) < DateKey(b)
    ensures a == b <==> DateKey(a) == DateKey(b)
  {
    var ya, ma, da := a[..4], a[5..7], a[8..];
    var yb, mb, db := b[..4], b[5..7], b[8..];
    assert a == ya + ("-" + (ma + ("-" + da)));
    assert b == yb + ("-" + (mb + ("-" + db)));
    StrLessConcat(ya, "-" + (ma + ("-" + da)), yb, "-" + (mb + ("-" + db)));
    StrLessConcat("-", ma + ("-" + da), "-", mb + ("-" + db));
    StrLessConcat(ma, "-" + da, mb, "-" + db);
    StrLessConcat("-", da, "-", db);
    DigitOrder(ya, yb);
    DigitOrder(ma, mb);
    DigitOrder(da, db);
    StrLessTrichotomy(a, b);
  }

  /** Four decimal digits for the years 1000 to 9999. */
  lemma FourDigitYear(y: nat)
    requires 1000 <= y <= 9999
    ensures |NatToString(y)| == 4 && AllDigits(NatToString(y)) && DecimalValue(NatToString(y)) == y
  {
    NatToStringFacts(y);
    NatToStringFacts(y / 10 / 10);
    assert NatToString(y) == NatToString(y / 10) + [DigitChar(y % 10)];
    assert NatToString(y / 10) == NatToString(y / 10 / 10) + [DigitChar(y / 10 % 10)];
  }

  /** The text `${year}-${pad(month)}-${pad(day)}` of a four-digit year and
      a month and day below 100 is a date text with exactly those fields. */
  lemma BuiltDateFields(s: string, year: nat, month: nat, day: nat)
    requires 1000 <= year <= 9999 && month < 100 && day < 100
    requires s == IntToString(year) + "-" + Pad2(month) + "-" + Pad2(day)
    ensures IsDateShape(s) && YearField(s) == year && MonthField(s) == month && DayField(s) == day
  {
    FourDigitYear(year);
    Pad2Digits(month);
    Pad2Digits(day);
    Pad2Value(month);
    Pad2Value(day);
    var ys := NatToString(year);
    assert s[..4] == ys && s[5..7] == Pad2(month) && s[8..] == Pad2(day);
  }

  // ---- `new Date(`${date}T${time}`)` ----

  /** The times of day a date-time string may carry: 00:00 to 23:59, and
      24:00 for the end of the day. */
  predicate IsTimeOfDay(t: string) {
    IsClock(t) && (HourOf(t) < 24 || ClockMinutes(t) == 24 * 60)
  }

  /** The day number of a date text. */
  function DateNumber(s: string): int
    requires IsDateText(s)
  {
    DayNumber(YearField(s), MonthField(s), DayField(s))
  }

  /** A `YYYY-MM-DD` date text and an `HH:MM` time of day make the local
      time value of that moment (a string without a UTC offset is local
      time); any other pair is `None` here, the Invalid Date whose time value
      is NaN. Times with seconds, a fraction or an offset are read as `None`
      too, though the date-time string format of ECMA-262 accepts them. */
  function ParseDateTime(date: string, time: string): (r: Option<int>)
    ensures r.Some? <==> IsDateText(date) && IsTimeOfDay(time)
  {
    if IsDateText(date) && IsTimeOfDay(time)
    then Some(TimeValue(DateNumber(date), ClockMinutes(time) * MsPerMinute))
    else None
  }

  /** The parsed moment falls on the date's own calendar day, at the time's
      own hour and minute. */
  lemma ParseDateTimeFields(date: string, time: string)
    requires IsDateText(date) && IsClock(time) && HourOf(time) < 24
    ensures ParseDateTime(date, time).Some?
    ensures LocalDate(ParseDateTime(date, time).value) == Civil(YearField(date), MonthField(date), DayField(date))
    ensures GetHours(ParseDateTime(date, time).value) == HourOf(time)
    ensures GetMinutes(ParseDateTime(date, time).value) == MinuteOf(time)
  {
    var t := ParseDateTime(date, time).value;
    var ms := ClockMinutes(time) * MsPerMinute;
    DayOfMidnight(DateNumber(date), ms);
    assert DayOf(t) == DateNumber(date) && TimeOfDay(t) == ms;
    CivilOfDayNumber(YearField(date), MonthField(date), DayField(date));
    ClockMs(HourOf(time), MinuteOf(time), ms);
  }

  /** Hours and minutes come back out of the milliseconds they make. */
  lemma ClockMs(h: nat, m: nat, ms: int)
    requires m < 60 && ms == (h * 60 + m) * MsPerMinute
    ensures ms / MsPerHour == h && (ms / MsPerMinute) % 60 == m
  {
    assert ms == h * MsPerHour + m * MsPerMinute;
    assert ms / MsPerMinute == h * 60 + m;
  }

  /** Of two valid calendar dates, the one whose fields come first in the
      order year, month, day has the smaller day number. */
  lemma DayNumberBefore(y1: int, m1: int, d1: int, y2: int, m2: int, d2: int)
    requires ValidCivil(Civil(y1, m1, d1)) && ValidCivil(Civil(y2, m2, d2))
    requires y1 < y2 || (y1 == y2 && (m1 < m2 || (m1 == m2 && d1 < d2)))
    ensures DayNumber(y1, m1, d1) < DayNumber(y2, m2, d2)
  {
    if y1 < y2 {
      DayNumberInYear(y1, m1, d1);
      DayNumberInYear(y2, m2, d2);
      DaysBeforeYearMonotone(y1, y2);
    } else if m1 < m2 {
      DaysBeforeMonthStep(y1, m1);
      DaysBeforeMonthMonotone(y1, m1, m2);
    }
  }

  /** Date texts compare as strings exactly as their days do in time. */
  lemma DateNumberOrder(a: string, b: string)
    requires IsDateText(a) && IsDateText(b)
    ensures StrLess(a, b) <==> DateNumber(a) < DateNumber(b)
    ensures a == b <==> DateNumber(a) == DateNumber(b)
  {
    DateTextOrder(a, b);
    var y1, m1, d1 := YearField(a), MonthField(a), DayField(a);
    var y2, m2, d2 := YearField(b), MonthField(b), DayField(b);
    if DateKey(a) < DateKey(b) {
      DayNumberBefore(y1, m1, d1, y2, m2, d2);
    } else if DateKey(b) < DateKey(a) {
      DayNumberBefore(y2, m2, d2, y1, m1, d1);
    }
  }

  /** Two booking moments before midnight are in the order of their date
      texts, and on one date in the order of their start times: sorting by
      the parsed moment sorts by (bookingDate, startTime) as strings. */
  lemma DateTimeOrder(d1: string, t1: string, d2: string, t2: string)
    requires IsDateText(d1) && IsClock(t1) && HourOf(t1) < 24
    requires IsDateText(d2) && IsClock(t2) && HourOf(t2) < 24
    ensures ParseDateTime(d1, t1).Some? && ParseDateTime(d2, t2).Some?
    ensures ParseDateTime(d1, t1).value < ParseDateTime(d2, t2).value <==>
            StrLess(d1, d2) || (d1 == d2 && StrLess(t1, t2))
    ensures ParseDateTime(d1, t1).value == ParseDateTime(d2, t2).value <==> d1 == d2 && t1 == t2
  {
    DateNumberOrder(d1, d2);
    ClockOrder(t1, t2);
    StrLessTrichotomy(d1, d2);
    var n1, n2 := DateNumber(d1), DateNumber(d2);
    var ms1, ms2 := ClockMinutes(t1) * MsPerMinute, ClockMinutes(t2) * MsPerMinute;
    assert 0 <= ms1 < MsPerDay && 0 <= ms2 < MsPerDay;
    if n1 < n2 {
      TimeValueShift(n1 + 1, n2 - n1 - 1, 0);
    } else if n2 < n1 {
      TimeValueShift(n2 + 1, n1 - n2 - 1, 0);
    }
  }

  /** "T24:00" is accepted and is the next day's midnight: the moment of
      (D, 24:00) equals that of (D + 1, 00:00), though the text pair of the
      first sorts before the second. */
  lemma MidnightTwice(d1: string, d2: string)
    requires IsDateText(d1) && IsDateText(d2) && DateNumber(d2) == DateNumber(d1) + 1
    ensures ParseDateTime(d1, "24:00").Some? && ParseDateTime(d1, "24:00") == ParseDateTime(d2, "00:00")
    ensures StrLess(d1, d2)
  {
    assert DigitValue('2') == 2 && DigitValue('4') == 4 && DigitValue('0') == 0;
    assert ClockMinutes("24:00") == 24 * 60 && ClockMinutes("00:00") == 0;
    DateNumberOrder(d1, d2);
  }
}
