/** The proleptic Gregorian calendar and the local-time part of JavaScript's
    `Date` that the source relies on (section 21.4 of ECMA-262). A `Date` is
    its time value in milliseconds of local wall-clock time: the local time
    zone is fixed and has no daylight-saving shifts. Day numbers count days
    from 1970-01-01. */
module Calendar {

  const MsPerDay: int := 86400000
  const MsPerHour: int := 3600000
  const MsPerMinute: int := 60000

  predicate IsLeap(y: int) {
    y % 4 == 0 && (y % 100 != 0 || y % 400 == 0)
  }

  function DaysInMonth(y: int, m: int): (n: int)
    requires 1 <= m <= 12
    ensures 28 <= n <= 31
  {
    if m == 2 then (if IsLeap(y) then 29 else 28)
    else if m == 4 || m == 6 || m == 9 || m == 11 then 30
    else 31
  }

  /** Days of year `y` before the first of month `m` (13 stands for the
      first of the next year). */
  function DaysBeforeMonth(y: int, m: int): (n: int)
    requires 1 <= m <= 13
  {
    (if m > 2 && IsLeap(y) then 1 else 0) +
    (if m == 1 then 0 else if m == 2 then 31 else if m == 3 then 59
     else if m == 4 then 90 else if m == 5 then 120 else if m == 6 then 151
     else if m == 7 then 181 else if m == 8 then 212 else if m == 9 then 243
     else if m == 10 then 273 else if m == 11 then 304 else if m == 12 then 334
     else 365)
  }

  /** Each month starts where the previous one ends. */
  lemma DaysBeforeMonthStep(y: int, m: int)
    requires 1 <= m <= 12
    ensures DaysBeforeMonth(y, m + 1) == DaysBeforeMonth(y, m) + DaysInMonth(y, m)
  {
  }

  function YearLength(y: int): (n: int)
    ensures n == DaysBeforeMonth(y, 13)
  {
    if IsLeap(y) then 366 else 365
  }

  /** The day number of January 1 of year `y`: the lengths of the years
      from 1970 up to `y`, or minus those from `y` up to 1970. */
  function DaysBeforeYear(y: int): int
    decreases if y < 1970 then 1970 - y else y - 1970
  {
    if y == 1970 then 0
    else if y > 1970 then DaysBeforeYear(y - 1) + YearLength(y - 1)
    else DaysBeforeYear(y + 1) - YearLength(y)
  }

  /** Consecutive years are one year length apart. */
  lemma YearStep(y: int)
    ensures DaysBeforeYear(y + 1) == DaysBeforeYear(y) + YearLength(y)
  {
  }

  /** Leap years before year `y`, counted from year 1 (negative before it). */
  function LeapsBefore(y: int): int {
    (y - 1) / 4 - (y - 1) / 100 + (y - 1) / 400
  }

  lemma DivStep(y: int, k: int)
    requires k == 4 || k == 100 || k == 400
    ensures y / k - (y - 1) / k == if y % k == 0 then 1 else 0
  {
  }

  lemma LeapDivisors(y: int)
    ensures y % 400 == 0 ==> y % 100 == 0
    ensures y % 100 == 0 ==> y % 4 == 0
  {
    if y % 400 == 0 {
      assert y == 400 * (y / 400);
      assert y == 100 * (4 * (y / 400));
    }
    if y % 100 == 0 {
      assert y == 100 * (y / 100);
      assert y == 4 * (25 * (y / 100));
    }
  }

  /** Each year adds one day more than 365 exactly when it is a leap year. */
  lemma LeapsStep(y: int)
    ensures LeapsBefore(y + 1) == LeapsBefore(y) + (if IsLeap(y) then 1 else 0)
  {
    DivStep(y, 4);
    DivStep(y, 100);
    DivStep(y, 400);
    LeapDivisors(y);
  }

  /** The year-by-year count agrees with the Gregorian closed form: 365 days
      a year plus one for each leap year in between. */
  lemma {:induction false} DaysBeforeYearClosedForm(y: int)
    ensures DaysBeforeYear(y) == 365 * (y - 1970) + LeapsBefore(y) - LeapsBefore(1970)
    decreases if y < 1970 then 1970 - y else y - 1970
  {
    if y > 1970 {
      DaysBeforeYearClosedForm(y - 1);
      LeapsStep(y - 1);
    } else if y < 1970 {
      DaysBeforeYearClosedForm(y + 1);
      LeapsStep(y);
    }
  }

  /** January 1 moves forward strictly with the year. */
  lemma {:induction false} DaysBeforeYearMonotone(a: int, b: int)
    requires a < b
    ensures DaysBeforeYear(a + 1) <= DaysBeforeYear(b)
    decreases b - a
  {
    if a + 1 < b {
      DaysBeforeYearMonotone(a, b - 1);
      YearStep(b - 1);
    }
  }

  /** The day number of a calendar date; `d` may run past the month's end,
      as it does for `Date` arithmetic. */
  function DayNumber(y: int, m: int, d: int): int
    requires 1 <= m <= 12
  {
    DaysBeforeYear(y) + DaysBeforeMonth(y, m) + d - 1
  }

  datatype Civil = Civil(year: int, month: int, day: int)

  predicate ValidCivil(c: Civil) {
    1 <= c.month <= 12 && 1 <= c.day <= DaysInMonth(c.year, c.month)
  }

  function YearUp(y: int, day: int): (r: int)
    requires DaysBeforeYear(y) <= day
    ensures DaysBeforeYear(r) <= day < DaysBeforeYear(r + 1)
    decreases day - DaysBeforeYear(y)
  {
    YearStep(y);
    if day < DaysBeforeYear(y + 1) then y else YearUp(y + 1, day)
  }

  function YearDown(y: int, day: int): (r: int)
    requires day < DaysBeforeYear(y + 1)
    ensures DaysBeforeYear(r) <= day < DaysBeforeYear(r + 1)
    decreases DaysBeforeYear(y + 1) - day
  {
    YearStep(y);
    if DaysBeforeYear(y) <= day then y else YearDown(y - 1, day)
  }

  /** The year a day number falls in. */
  function YearOf(day: int): (r: int)
    ensures DaysBeforeYear(r) <= day < DaysBeforeYear(r + 1)
  {
    if day >= 0 then YearUp(1970, day) else YearDown(1969, day)
  }

  function MonthFrom(y: int, dayOfYear: int, m: int): (r: int)
    requires 1 <= m <= 12 && 0 <= dayOfYear < DaysBeforeMonth(y, m + 1)
    ensures 1 <= r <= 12 && DaysBeforeMonth(y, r) <= dayOfYear < DaysBeforeMonth(y, r + 1)
    decreases m
  {
    if DaysBeforeMonth(y, m) <= dayOfYear then m else MonthFrom(y, dayOfYear, m - 1)
  }

  /** The calendar date of a day number. */
  function CivilOf(day: int): (c: Civil)
    ensures ValidCivil(c) && DayNumber(c.year, c.month, c.day) == day
  {
    var y := YearOf(day);
    YearStep(y);
    var doy := day - DaysBeforeYear(y);
    var m := MonthFrom(y, doy, 12);
    DaysBeforeMonthStep(y, m);
    Civil(y, m, doy - DaysBeforeMonth(y, m) + 1)
  }

  /** A valid calendar date's day number lies inside its year. */
  lemma DayNumberInYear(y: int, m: int, d: int)
    requires ValidCivil(Civil(y, m, d))
    ensures DaysBeforeYear(y) <= DayNumber(y, m, d) < DaysBeforeYear(y + 1)
  {
    DaysBeforeMonthStep(y, m);
    YearStep(y);
    assert DaysBeforeMonth(y, m + 1) <= DaysBeforeMonth(y, 13);
  }

  /** Later months start later. */
  lemma DaysBeforeMonthMonotone(y: int, a: int, b: int)
    requires 1 <= a < b <= 13
    ensures DaysBeforeMonth(y, a + 1) <= DaysBeforeMonth(y, b)
  {
  }

  /** Only one year holds a given day number. */
  lemma YearUnique(y1: int, y2: int, n: int)
    requires DaysBeforeYear(y1) <= n < DaysBeforeYear(y1 + 1)
    requires DaysBeforeYear(y2) <= n < DaysBeforeYear(y2 + 1)
    ensures y1 == y2
  {
    if y1 < y2 {
      DaysBeforeYearMonotone(y1, y2);
    } else if y2 < y1 {
      DaysBeforeYearMonotone(y2, y1);
    }
  }

  /** Only one month of a year holds a given day of the year. */
  lemma MonthUnique(y: int, m1: int, m2: int, doy: int)
    requires 1 <= m1 <= 12 && 1 <= m2 <= 12
    requires DaysBeforeMonth(y, m1) <= doy < DaysBeforeMonth(y, m1 + 1)
    requires DaysBeforeMonth(y, m2) <= doy < DaysBeforeMonth(y, m2 + 1)
    ensures m1 == m2
  {
    if m1 < m2 {
      DaysBeforeMonthMonotone(y, m1, m2);
    } else if m2 < m1 {
      DaysBeforeMonthMonotone(y, m2, m1);
    }
  }

  /** Day numbers and valid calendar dates correspond one to one. */
  lemma CivilOfDayNumber(y: int, m: int, d: int)
    requires ValidCivil(Civil(y, m, d))
    ensures CivilOf(DayNumber(y, m, d)) == Civil(y, m, d)
  {
    var n := DayNumber(y, m, d);
    var c := CivilOf(n);
    DayNumberInYear(y, m, d);
    DayNumberInYear(c.year, c.month, c.day);
    YearUnique(y, c.year, n);
    DaysBeforeMonthStep(y, m);
    DaysBeforeMonthStep(y, c.month);
    MonthUnique(y, m, c.month, n - DaysBeforeYear(y));
  }

  /** 1970-01-01 was a Thursday; 0 is Sunday, as `getDay` counts. */
  function Weekday(day: int): (w: int)
    ensures 0 <= w < 7
  {
    (day + 4) % 7
  }

  /** The weekday advances by one each day. */
  lemma WeekdayShift(day: int, n: int)
    ensures Weekday(day + n) == (Weekday(day) + n) % 7
  {
  }

  // ---- the local-time view of a `Date` ----

  /** The local day a time value falls on. */
  function DayOf(t: int): int {
    t / MsPerDay
  }

  function TimeOfDay(t: int): (r: int)
    ensures 0 <= r < MsPerDay
  {
    t % MsPerDay
  }

  /** The time value at `ms` milliseconds into local day `day`. */
  function TimeValue(day: int, ms: int): int {
    day * MsPerDay + ms
  }

  lemma DayAndTime(t: int)
    ensures TimeValue(DayOf(t), TimeOfDay(t)) == t
  {
  }

  lemma DayOfMidnight(day: int, ms: int)
    requires 0 <= ms < MsPerDay
    ensures DayOf(TimeValue(day, ms)) == day && TimeOfDay(TimeValue(day, ms)) == ms
  {
  }

  /** `n` days later is `n * MsPerDay` milliseconds later. */
  lemma TimeValueShift(day: int, n: int, ms: int)
    ensures TimeValue(day + n, ms) == TimeValue(day, ms) + n * MsPerDay
  {
  }

  /** The getters on the local midnight of a day. */
  lemma MidnightFacts(t: int, day: int)
    requires t == TimeValue(day, 0)
    ensures DayOf(t) == day && TimeOfDay(t) == 0 && GetDay(t) == Weekday(day)
  {
    DayOfMidnight(day, 0);
  }

  lemma MidnightDate(t: int, day: int)
    requires t == TimeValue(day, 0)
    ensures LocalDate(t) == CivilOf(day)
  {
    DayOfMidnight(day, 0);
  }

  /** `getDay()`. */
  function GetDay(t: int): (w: int)
    ensures 0 <= w < 7
  {
    Weekday(DayOf(t))
  }

  /** The local calendar date of a time value. */
  function LocalDate(t: int): (c: Civil)
    ensures ValidCivil(c)
  {
    CivilOf(DayOf(t))
  }

  /** `getFullYear()`, `getMonth()` (0-based) and `getDate()`. */
  function GetFullYear(t: int): int {
    LocalDate(t).year
  }

  function GetMonth(t: int): (m: int)
    ensures 0 <= m <= 11
  {
    LocalDate(t).month - 1
  }

  function GetDate(t: int): (d: int)
    ensures 1 <= d <= 31
  {
    LocalDate(t).day
  }

  /** `getHours()` and `getMinutes()`. */
  function GetHours(t: int): (h: int)
    ensures 0 <= h < 24
  {
    TimeOfDay(t) / MsPerHour
  }

  function GetMinutes(t: int): (m: int)
    ensures 0 <= m < 60
  {
    (TimeOfDay(t) / MsPerMinute) % 60
  }

  /** MakeDay of section 21.4.1.28 of ECMA-262 on a local date: the month
      index is carried into the year with floor division, and the day of the
      month may run past either end of the month. */
  function MakeDay(y: int, monthIndex: int, d: int): int {
    DayNumber(y + monthIndex / 12, monthIndex % 12 + 1, d)
  }

  /** The year and month MakeDay lands in. */
  function MonthOfIndex(y: int, monthIndex: int): (c: Civil)
    ensures 1 <= c.month <= 12
  {
    Civil(y + monthIndex / 12, monthIndex % 12 + 1, 1)
  }

  /** `new Date(y, m, d)` maps years 0 to 99 to 1900 to 1999. */
  function ConstructorYear(y: int): int {
    if 0 <= y <= 99 then 1900 + y else y
  }

  /** `new Date(y, monthIndex, d)`: local midnight of that day. */
  function NewLocalDate(y: int, monthIndex: int, d: int): int {
    TimeValue(MakeDay(ConstructorYear(y), monthIndex, d), 0)
  }

  /** `setHours(0, 0, 0, 0)`: local midnight of the same day. */
  function StartOfDay(t: int): (r: int)
    ensures r <= t < r + MsPerDay && DayOf(r) == DayOf(t)
  {
    DayOfMidnight(DayOf(t), 0);
    TimeValue(DayOf(t), 0)
  }

  /** `setDate(d)`: the same year, month and time of day, day of month `d`. */
  function SetDate(t: int, d: int): int {
    TimeValue(MakeDay(GetFullYear(t), GetMonth(t), d), TimeOfDay(t))
  }

  /** `setHours(h, m, 0, 0)`. */
  function SetHours(t: int, h: int, m: int): int {
    TimeValue(DayOf(t), h * MsPerHour + m * MsPerMinute)
  }

  /** Days of the month are consecutive day numbers. */
  lemma MakeDayLinear(y: int, monthIndex: int, d: int)
    ensures MakeDay(y, monthIndex, d) == MakeDay(y, monthIndex, 1) + d - 1
  {
  }

  /** Moving the day of the month by `n`, as `setDate(getDate() + n)` does,
      moves the time value by exactly `n` days: there is no month or year
      arithmetic left over. */
  lemma SetDateShift(t: int, n: int)
    ensures SetDate(t, GetDate(t) + n) == t + n * MsPerDay
  {
    SetDateDay(t, GetDate(t) + n);
    MakeDayOfLocal(t, n);
    TimeValueShift(DayOf(t), n, TimeOfDay(t));
    DayAndTime(t);
  }

  lemma SetDateDay(t: int, d: int)
    ensures SetDate(t, d) == TimeValue(MakeDay(GetFullYear(t), GetMonth(t), d), TimeOfDay(t))
  {
  }

  /** The calendar date of a time value names its day. */
  lemma LocalDateDay(t: int)
    ensures DayNumber(GetFullYear(t), GetMonth(t) + 1, GetDate(t)) == DayOf(t)
  {
  }

  lemma MakeDayOfLocal(t: int, n: int)
    ensures MakeDay(GetFullYear(t), GetMonth(t), GetDate(t) + n) == DayOf(t) + n
  {
    LocalDateDay(t);
    MakeDayShift(GetFullYear(t), GetMonth(t), GetDate(t), n, DayOf(t));
  }

  /** Within a year the month index needs no carry, and the day of the month
      shifts the day number one for one. */
  lemma MakeDayShift(y: int, mi: int, d: int, n: int, day: int)
    requires 0 <= mi <= 11 && DayNumber(y, mi + 1, d) == day
    ensures MakeDay(y, mi, d + n) == day + n
  {
    assert mi / 12 == 0 && mi % 12 == mi;
  }

  lemma MonthCarry(mi: int)
    ensures mi % 12 == 11 ==> (mi + 1) / 12 == mi / 12 + 1 && (mi + 1) % 12 == 0
    ensures mi % 12 != 11 ==> (mi + 1) / 12 == mi / 12 && (mi + 1) % 12 == mi % 12 + 1
  {
  }

  /** Day 0 of the next month is the last day of this one. */
  lemma MonthEnd(y: int, mi: int)
    ensures MakeDay(y, mi + 1, 0)
         == MakeDay(y, mi, 1) + DaysInMonth(MonthOfIndex(y, mi).year, MonthOfIndex(y, mi).month) - 1
  {
    var c := MonthOfIndex(y, mi);
    MonthCarry(mi);
    DaysBeforeMonthStep(c.year, c.month);
    if mi % 12 == 11 {
      YearStep(c.year);
    }
  }

  /** A day inside the month MakeDay lands in has that calendar date. */
  lemma MakeDayDate(y: int, mi: int, d: int)
    requires 1 <= d <= DaysInMonth(MonthOfIndex(y, mi).year, MonthOfIndex(y, mi).month)
    ensures CivilOf(MakeDay(y, mi, d)) == Civil(MonthOfIndex(y, mi).year, MonthOfIndex(y, mi).month, d)
  {
    MakeDayOfIndex(y, mi, d);
    CivilOfDayNumber(MonthOfIndex(y, mi).year, MonthOfIndex(y, mi).month, d);
  }

  /** The same, for a day number already known to be `MakeDay(y, mi, d)`. */
  lemma MakeDayDateAt(y: int, mi: int, d: int, day: int)
    requires 1 <= d <= DaysInMonth(MonthOfIndex(y, mi).year, MonthOfIndex(y, mi).month)
    requires day == MakeDay(y, mi, d)
    ensures CivilOf(day) == Civil(MonthOfIndex(y, mi).year, MonthOfIndex(y, mi).month, d)
  {
    MakeDayDate(y, mi, d);
  }

  lemma MakeDayOfIndex(y: int, mi: int, d: int)
    ensures MakeDay(y, mi, d) == DayNumber(MonthOfIndex(y, mi).year, MonthOfIndex(y, mi).month, d)
  {
  }
}
