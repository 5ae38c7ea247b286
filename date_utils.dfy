/** The calendar helpers of src/core/utils/dateUtils.ts: 12-hour display of a
    time, day arithmetic on `Date`s, and the week and whole-week month grids
    a calendar shows. */
module DateUtils {
  import opened Collections
  import opened Text
  import opened Calendar
  import TimeSlotUtils

  // ---- formatTime ----

  /** The hour shown on a 12-hour clock: 12 for midnight, the afternoon
      hours less 12, any other value as it is. */
  function DisplayHour(hour: int): int {
    if hour == 0 then 12 else if hour > 12 then hour - 12 else hour
  }

  /** Morning for an hour below 12; `NaN < 12` is false, so an hour that does
      not parse is afternoon. */
  function Meridiem(hour: Option<int>): string {
    if hour.Some? && hour.value < 12 then "오전" else "오후"
  }

  /** The hour as `${displayHour}` renders it. */
  function HourText(hour: Option<int>): string {
    match hour
    case None => "NaN"
    case Some(h) => IntToString(DisplayHour(h))
  }

  /** `formatTime(time)`: the meridiem, the 12-hour hour and the minute field
      exactly as written (`undefined` when there is no ':'). */
  function FormatTime(time: string): (r: string)
    ensures EndsWith(r, if |Split(time, ':')| > 1 then Split(time, ':')[1] else "undefined")
  {
    var parts := Split(time, ':');
    var minutes := if |parts| > 1 then parts[1] else "undefined";
    var hour := ParseInt(parts[0]);
    var r := Meridiem(hour) + " " + HourText(hour) + ":" + minutes;
    assert r[|r| - |minutes|..] == minutes;
    r
  }

  /** On the hours of a day the display hour is one of 1..12 and names the
      same hour modulo 12; it is the hour itself from 1 to 12. */
  lemma DisplayHourOfDay(hour: int)
    requires 0 <= hour <= 23
    ensures 1 <= DisplayHour(hour) <= 12
    ensures DisplayHour(hour) % 12 == hour % 12
    ensures 1 <= hour <= 12 ==> DisplayHour(hour) == hour
  {
  }

  /** Morning exactly when the parsed hour is below 12. */
  lemma MeridiemMeaning(hour: Option<int>)
    ensures Meridiem(hour) == "오전" <==> hour.Some? && hour.value < 12
  {
    assert "오전" != "오후" by {
      assert "오전"[1] != "오후"[1];
    }
  }

  /** On an "HH:MM" time: morning iff the hour is below 12, the 12-hour hour
      in decimal, and the two minute digits as written. */
  lemma FormatTimeOfClock(time: string)
    requires TimeSlotUtils.IsClock(time)
    ensures FormatTime(time)
         == Meridiem(Some(TimeSlotUtils.HourOf(time))) + " "
            + NatToString(DisplayHour(TimeSlotUtils.HourOf(time))) + ":" + time[3..]
  {
    TimeSlotUtils.ClockFields(time);
    SplitFirst(time, ':', 2);
    SplitNone(time[3..], ':');
    assert Split(time, ':') == [time[..2], time[3..]];
    ParseIntDigits(time[..2]);
  }

  /** `formatTime` put together from the fields `split(':')` returns. */
  lemma FormatTimeFields(time: string, parts: seq<string>, hour: Option<int>, minutes: string)
    requires parts == Split(time, ':')
    requires hour == ParseInt(parts[0])
    requires minutes == if |parts| > 1 then parts[1] else "undefined"
    ensures FormatTime(time) == Meridiem(hour) + " " + HourText(hour) + ":" + minutes
  {
  }

  /** `formatTime("9")` has no minute field. */
  lemma FormatTimeWithoutColon()
    ensures FormatTime("9") == "오전 9:undefined"
  {
    assert Meridiem(Some(9)) + " " + HourText(Some(9)) + ":" + "undefined" == "오전 9:undefined";
    assert Split("9", ':') == ["9"] by {
      SplitNone("9", ':');
    }
    assert ParseInt("9") == Some(9) by {
      ParseIntDigits("9");
      assert "9"[..0] == [];
    }
    FormatTimeFields("9", ["9"], Some(9), "undefined");
  }

  /** A time whose hour field is not a number shows `NaN` in the afternoon. */
  lemma FormatTimeNotANumber()
    ensures FormatTime("ab:30") == "오후 NaN:30"
  {
    assert Meridiem(None) + " " + HourText(None) + ":" + "30" == "오후 NaN:30";
    assert Split("ab:30", ':') == ["ab", "30"] by {
      SplitFirst("ab:30", ':', 2);
      SplitNone("30", ':');
      assert "ab:30"[..2] == "ab" && "ab:30"[3..] == "30";
    }
    assert ParseInt("ab") == None by {
      ParseIntNaN("ab");
    }
    FormatTimeFields("ab:30", ["ab", "30"], None, "30");
  }

  // ---- addDays and isPast ----

  /** `addDays(date, days)`: a copy of `date` whose day of the month is
      moved with `setDate(getDate() + days)`, which lands `days` whole days
      later at the same time of day. */
  method AddDays(date: int, days: int) returns (result: int)
    ensures result == date + days * MsPerDay
  {
    result := date;
    result := SetDate(result, GetDate(result) + days);
    SetDateShift(date, days);
  }

  /** So `addDays` moves the local day by `days` and keeps the time of day. */
  lemma AddDaysDay(date: int, days: int)
    ensures DayOf(date + days * MsPerDay) == DayOf(date) + days
    ensures TimeOfDay(date + days * MsPerDay) == TimeOfDay(date)
  {
    DayAndTime(date);
    TimeValueShift(DayOf(date), days, TimeOfDay(date));
    DayOfMidnight(DayOf(date) + days, TimeOfDay(date));
  }

  /** `isPast(date)` with `now` for `new Date()`: before today's midnight. */
  function IsPast(date: int, now: int): bool {
    date < StartOfDay(now)
  }

  /** A date is past exactly when it falls on an earlier local day than now. */
  lemma IsPastMeaning(date: int, now: int)
    ensures IsPast(date, now) <==> DayOf(date) < DayOf(now)
  {
    DayAndTime(date);
  }

  // ---- getWeekDates ----

  /** `getWeekDates(startDate)`: seven dates one day apart from `startDate`. */
  method GetWeekDates(startDate: int) returns (dates: seq<int>)
    ensures |dates| == 7 && dates[0] == startDate
    ensures forall i :: 0 <= i < 7 ==> dates[i] == startDate + i * MsPerDay
  {
    dates := [];
    var i := 0;
    while i < 7
      invariant 0 <= i <= 7 && |dates| == i
      invariant forall j :: 0 <= j < i ==> dates[j] == startDate + j * MsPerDay
    {
      var d := AddDays(startDate, i);
      dates := dates + [d];
      i := i + 1;
    }
  }

  /** The seven dates fall on seven consecutive local days at the start's
      time of day. */
  lemma WeekConsecutive(startDate: int, dates: seq<int>, i: nat)
    requires |dates| == 7 && i < 7
    requires forall j :: 0 <= j < 7 ==> dates[j] == startDate + j * MsPerDay
    ensures DayOf(dates[i]) == DayOf(startDate) + i && TimeOfDay(dates[i]) == TimeOfDay(startDate)
  {
    AddDaysDay(startDate, i);
  }

  // ---- getMonthDates ----

  /** The local day of `new Date(year, month, 1)`. */
  function FirstDay(year: int, month: int): int {
    MakeDay(ConstructorYear(year), month, 1)
  }

  /** The calendar year and month `new Date(year, month, ..)` falls in, once
      a month index outside 0..11 has been carried into the year. */
  function TargetMonth(year: int, month: int): (c: Civil)
    ensures 1 <= c.month <= 12
  {
    MonthOfIndex(ConstructorYear(year), month)
  }

  function MonthLength(year: int, month: int): (n: int)
    ensures 28 <= n <= 31
  {
    DaysInMonth(TargetMonth(year, month).year, TargetMonth(year, month).month)
  }

  /** Local midnights of `n` consecutive days from day `from`. */
  function Midnights(from: int, n: nat): (r: seq<int>)
    ensures |r| == n
  {
    seq(n, k => TimeValue(from + k, 0))
  }

  lemma MidnightsSnoc(from: int, n: nat, next: int)
    requires next == TimeValue(from + n, 0)
    ensures Midnights(from, n) + [next] == Midnights(from, n + 1)
  {
  }

  /** Whole weeks around a month that starts on day `first` and has `len`
      days: the days back to the Sunday before, the month, and the days on to
      the Saturday after. */
  function WeekPadded(first: int, len: nat): seq<int> {
    var before := Weekday(first);
    var after := 6 - Weekday(first + len - 1);
    Midnights(first - before, before + len + after)
  }

  /** The dates `getMonthDates(year, month)` should list. */
  function MonthGrid(year: int, month: int): seq<int> {
    WeekPadded(FirstDay(year, month), MonthLength(year, month))
  }

  /** `new Date(year, month, 1)` and `new Date(year, month + 1, 0)` as
      `getMonthDates` uses them: the first and the last day of the month. */
  lemma MonthEnds(year: int, month: int, firstDay: int, lastDay: int, first: int, len: int)
    requires firstDay == NewLocalDate(year, month, 1) && lastDay == NewLocalDate(year, month + 1, 0)
    requires first == FirstDay(year, month) && len == MonthLength(year, month)
    ensures firstDay == TimeValue(first, 0) && GetDay(firstDay) == Weekday(first)
    ensures lastDay == TimeValue(first + len - 1, 0) && GetDay(lastDay) == Weekday(first + len - 1)
  {
    MidnightFacts(firstDay, first);
    LastDayIndex(year, month);
    MidnightFacts(lastDay, first + len - 1);
  }

  /** The day of the month of `new Date(year, month + 1, 0)` is the month's length. */
  lemma LastDayGetDate(year: int, month: int, lastDay: int, first: int, len: int)
    requires lastDay == TimeValue(first + len - 1, 0)
    requires first == FirstDay(year, month) && len == MonthLength(year, month)
    ensures GetDate(lastDay) == len
  {
    MidnightDate(lastDay, first + len - 1);
    LastDayDate(year, month);
  }

  /** The grid as the days from `from` on. */
  lemma MonthGridFrom(year: int, month: int, first: int, len: int, from: int, n: nat)
    requires first == FirstDay(year, month) && len == MonthLength(year, month)
    requires from == first - Weekday(first) && n == Weekday(first) + len + 6 - Weekday(first + len - 1)
    ensures MonthGrid(year, month) == Midnights(from, n)
  {
  }

  /** Day 0 of the next month is the last day of this one. */
  lemma LastDayIndex(year: int, month: int)
    ensures MakeDay(ConstructorYear(year), month + 1, 0) == FirstDay(year, month) + MonthLength(year, month) - 1
  {
    MonthEnd(ConstructorYear(year), month);
  }

  /** The month's length is the day of the month of its last day. */
  lemma LastDayDate(year: int, month: int)
    ensures CivilOf(FirstDay(year, month) + MonthLength(year, month) - 1).day == MonthLength(year, month)
  {
    var y, len := ConstructorYear(year), MonthLength(year, month);
    MakeDayLinear(y, month, len);
    MakeDayDateAt(y, month, len, FirstDay(year, month) + len - 1);
  }

  /** `new Date(year, month, day)` is `day - 1` days after the first. */
  lemma DayOfMonth(year: int, month: int, day: int, date: int, first: int)
    requires date == NewLocalDate(year, month, day) && first == FirstDay(year, month)
    ensures date == TimeValue(first + day - 1, 0)
  {
    MakeDayLinear(ConstructorYear(year), month, day);
  }

  /** `getMonthDates(year, month)`: the weekday padding before the first,
      the days of the month, and the padding after the last day. */
  method GetMonthDates(year: int, month: int) returns (dates: seq<int>)
    ensures dates == MonthGrid(year, month)
  {
    var firstDay := NewLocalDate(year, month, 1);
    var lastDay := NewLocalDate(year, month + 1, 0);
    ghost var first, len := FirstDay(year, month), MonthLength(year, month);
    MonthEnds(year, month, firstDay, lastDay, first, len);
    LastDayGetDate(year, month, lastDay, first, len);
    dates := [];

    var startPadding := GetDay(firstDay);
    ghost var from := first - startPadding;
    var i := startPadding - 1;
    while i >= 0
      invariant -1 <= i < startPadding && |dates| == startPadding - 1 - i
      invariant dates == Midnights(from, |dates|)
    {
      var d := AddDays(firstDay, -i - 1);
      MidnightsSnoc(from, |dates|, d);
      dates := dates + [d];
      i := i - 1;
    }

    var day := 1;
    while day <= GetDate(lastDay)
      invariant 1 <= day <= len + 1 && |dates| == startPadding + day - 1
      invariant dates == Midnights(from, |dates|)
    {
      var d := NewLocalDate(year, month, day);
      DayOfMonth(year, month, day, d, first);
      MidnightsSnoc(from, |dates|, d);
      dates := dates + [d];
      day := day + 1;
    }

    var endPadding := 6 - GetDay(lastDay);
    var j := 1;
    while j <= endPadding
      invariant 1 <= j <= endPadding + 1 && |dates| == startPadding + len + j - 1
      invariant dates == Midnights(from, |dates|)
    {
      var d := AddDays(lastDay, j);
      MidnightsSnoc(from, |dates|, d);
      dates := dates + [d];
      j := j + 1;
    }
    MonthGridFrom(year, month, first, len, from, |dates|);
  }

  /** Padded to whole weeks: a Sunday first, a Saturday last. */
  lemma WeekPaddedWeeks(first: int, len: nat)
    requires len >= 1
    ensures |WeekPadded(first, len)| % 7 == 0 && |WeekPadded(first, len)| >= len
    ensures Weekday(DayOf(WeekPadded(first, len)[0])) == 0
    ensures Weekday(DayOf(WeekPadded(first, len)[|WeekPadded(first, len)| - 1])) == 6
  {
    var g := WeekPadded(first, len);
    var before := Weekday(first);
    var last := first + len - 1;
    var after := 6 - Weekday(last);
    DayOfMidnight(first - before, 0);
    DayOfMidnight(last + after, 0);
    assert g[0] == TimeValue(first - before, 0);
    assert g[|g| - 1] == TimeValue(last + after, 0);
    WeekdayShift(first, -before);
    WeekdayShift(last, after);
    WeekdayShift(first - before, |g| - 1);
  }

  /** The grid starts on a Sunday, ends on a Saturday and is whole weeks long. */
  lemma MonthGridWeeks(year: int, month: int)
    ensures |MonthGrid(year, month)| % 7 == 0 && |MonthGrid(year, month)| >= 28
    ensures GetDay(MonthGrid(year, month)[0]) == 0
    ensures GetDay(MonthGrid(year, month)[|MonthGrid(year, month)| - 1]) == 6
  {
    WeekPaddedWeeks(FirstDay(year, month), MonthLength(year, month));
  }

  /** The first `Weekday(first)` entries pad the week before the month; then
      come the month's days in order, each with its own calendar date. */
  lemma MonthGridDays(year: int, month: int, day: int)
    requires 1 <= day <= MonthLength(year, month)
    ensures Weekday(FirstDay(year, month)) + day - 1 < |MonthGrid(year, month)|
    ensures MonthGrid(year, month)[Weekday(FirstDay(year, month)) + day - 1] == NewLocalDate(year, month, day)
    ensures LocalDate(NewLocalDate(year, month, day))
         == Civil(TargetMonth(year, month).year, TargetMonth(year, month).month, day)
  {
    WeekPaddedEntry(FirstDay(year, month), MonthLength(year, month), Weekday(FirstDay(year, month)) + day - 1);
    DayOfMonth(year, month, day, NewLocalDate(year, month, day), FirstDay(year, month));
    MonthDayDate(year, month, day);
  }

  lemma WeekPaddedEntry(first: int, len: nat, k: int)
    requires Weekday(first) <= k < Weekday(first) + len
    ensures k < |WeekPadded(first, len)|
    ensures WeekPadded(first, len)[k] == TimeValue(first - Weekday(first) + k, 0)
  {
  }

  lemma MonthDayDate(year: int, month: int, day: int)
    requires 1 <= day <= MonthLength(year, month)
    ensures LocalDate(NewLocalDate(year, month, day))
         == Civil(TargetMonth(year, month).year, TargetMonth(year, month).month, day)
  {
    var y := ConstructorYear(year);
    MakeDayDate(y, month, day);
    MidnightDate(NewLocalDate(year, month, day), MakeDay(y, month, day));
  }

  /** Neighbouring entries are one day apart. */
  lemma MidnightsConsecutive(from: int, n: nat, k: nat)
    requires k + 1 < n
    ensures Midnights(from, n)[k + 1] == Midnights(from, n)[k] + MsPerDay
  {
    TimeValueShift(from + k, 1, 0);
  }

  lemma MonthGridConsecutive(year: int, month: int, k: nat)
    requires k + 1 < |MonthGrid(year, month)|
    ensures MonthGrid(year, month)[k + 1] == MonthGrid(year, month)[k] + MsPerDay
  {
    var first := FirstDay(year, month);
    var len := MonthLength(year, month);
    MidnightsConsecutive(first - Weekday(first), Weekday(first) + len + 6 - Weekday(first + len - 1), k);
  }
}
