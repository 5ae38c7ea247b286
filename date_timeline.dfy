/** The date-by-hour timeline: one row per day of a window of days, one
    cell per hour 0 to 23, with each day's total booked time; a cell is
    booked when a booking's hour fields cover it. */
module DateTimeline {
  import opened Collections
  import opened Types
  import opened Calendar
  import opened TimeSlotUtils
  import TimelineSelector
  import ScheduleGrid

  // ---- the rows ----

  /** `dates`: `daysToShow` dates, the `i`-th `i` days after
      `currentStartDate` at the same time of day. */
  method Dates(currentStartDate: int, daysToShow: int) returns (result: seq<int>)
    ensures |result| == if daysToShow > 0 then daysToShow else 0
    ensures forall i :: 0 <= i < |result| ==> result[i] == currentStartDate + i * MsPerDay
    ensures forall i :: 0 <= i < |result| ==> DayOf(result[i]) == DayOf(currentStartDate) + i
  {
    result := [];
    var i := 0;
    while i < daysToShow
      invariant 0 <= i <= if daysToShow > 0 then daysToShow else 0
      invariant |result| == i
      invariant forall j :: 0 <= j < i ==> result[j] == currentStartDate + j * MsPerDay
      invariant forall j :: 0 <= j < i ==> DayOf(result[j]) == DayOf(currentStartDate) + j
    {
      var date := currentStartDate;
      SetDateShift(date, i);
      date := SetDate(date, GetDate(date) + i);
      DayShift(currentStartDate, i);
      result := result + [date];
      i := i + 1;
    }
  }

  /** `n` days later falls on the day `n` later. */
  lemma DayShift(t: int, n: int)
    ensures DayOf(t + n * MsPerDay) == DayOf(t) + n
  {
    DayAndTime(t);
    TimeValueShift(DayOf(t), n, TimeOfDay(t));
    DayOfMidnight(DayOf(t) + n, TimeOfDay(t));
  }

  // ---- a day's bookings ----

  predicate OnDate(b: Booking, dateStr: string) {
    b.bookingDate == dateStr && b.status != Cancelled
  }

  /** `getBookingsForDate`: the bookings of that date that are not
      cancelled, in their order. The date string, which the source takes
      from `toISOString`, is a parameter. */
  function BookingsForDate(bookings: seq<Booking>, dateStr: string): (r: seq<Booking>)
    ensures forall x :: x in r <==> x in bookings && x.bookingDate == dateStr && x.status != Cancelled
  {
    FilterMembers(bookings, (b: Booking) => OnDate(b, dateStr));
    Filter(bookings, (b: Booking) => OnDate(b, dateStr))
  }

  // ---- the day's total ----

  /** `(endH * 60 + endM) - (startH * 60 + startM)` of one booking, `None`
      when a field is NaN. */
  function Duration(b: Booking): Option<int> {
    var start := ParseClock(b.startTime);
    var end := ParseClock(b.endTime);
    if start.Some? && end.Some? then Some(end.value - start.value) else None
  }

  /** The sum of the durations; one NaN makes the whole sum NaN. */
  function TotalMinutes(bookings: seq<Booking>): Option<int> {
    Sum(bookings, Duration)
  }

  /** `f` summed over `xs` from the left, `None` (NaN) absorbing. */
  function Sum<T>(xs: seq<T>, f: T -> Option<int>): Option<int>
    decreases |xs|
  {
    if xs == [] then Some(0)
    else
      var front := Sum(xs[..|xs| - 1], f);
      var last := f(xs[|xs| - 1]);
      if front.Some? && last.Some? then Some(front.value + last.value) else None
  }

  /** The `forEach` that adds up `totalMinutes` over the day's bookings. */
  method TotalBookedMinutes(bookings: seq<Booking>, dateStr: string) returns (total: Option<int>)
    ensures total == TotalMinutes(BookingsForDate(bookings, dateStr))
  {
    var dateBookings := BookingsForDate(bookings, dateStr);
    total := Some(0);
    var i := 0;
    while i < |dateBookings|
      invariant 0 <= i <= |dateBookings|
      invariant total == TotalMinutes(dateBookings[..i])
    {
      var d := Duration(dateBookings[i]);
      SumPrefix(dateBookings, Duration, i, total, d);
      total := if total.Some? && d.Some? then Some(total.value + d.value) else None;
      i := i + 1;
    }
    assert dateBookings[..|dateBookings|] == dateBookings;
  }

  /** One more element adds its value to the running sum. */
  lemma SumPrefix<T>(xs: seq<T>, f: T -> Option<int>, i: nat, total: Option<int>, d: Option<int>)
    requires i < |xs| && total == Sum(xs[..i], f) && d == f(xs[i])
    ensures Sum(xs[..i + 1], f) == if total.Some? && d.Some? then Some(total.value + d.value) else None
  {
    assert xs[..i + 1][..i] == xs[..i];
  }

  /** The total-hours column shows hours, or "-". */
  datatype TotalText = Hours(minutes: int) | Dash

  /** `isOp ? getTotalBookedHours(date) : '-'`, where the total reads
      `${totalMinutes / 60}h` when positive and "-" otherwise (NaN included). */
  function TotalCell(isOp: bool, total: Option<int>): (r: TotalText)
    ensures r.Hours? <==> isOp && total.Some? && total.value > 0
    ensures r.Hours? ==> r.minutes == total.value
  {
    if isOp && total.Some? && total.value > 0 then Hours(total.value) else Dash
  }

  /** A booking whose times are well formed and do not run backwards. */
  predicate ForwardClock(b: Booking) {
    IsClock(b.startTime) && IsClock(b.endTime) && ClockMinutes(b.startTime) <= ClockMinutes(b.endTime)
  }

  /** With well-formed times the total is a number of minutes, and it is
      zero, so that the row shows "-", exactly when no booking has positive
      length. */
  lemma {:induction false} TotalMinutesOfClocks(bookings: seq<Booking>)
    requires forall i :: 0 <= i < |bookings| ==> ForwardClock(bookings[i])
    ensures TotalMinutes(bookings).Some? && TotalMinutes(bookings).value >= 0
    ensures TotalMinutes(bookings).value == 0 <==>
            forall i :: 0 <= i < |bookings| ==> bookings[i].startTime == bookings[i].endTime
    decreases |bookings|
  {
    if bookings != [] {
      var n := |bookings| - 1;
      var front := bookings[..n];
      TotalMinutesOfClocks(front);
      var b := bookings[n];
      DurationOfClock(b);
      assert TotalMinutes(bookings).value == TotalMinutes(front).value + Duration(b).value;
      if TotalMinutes(bookings).value == 0 {
        assert TotalMinutes(front).value == 0 && b.startTime == b.endTime;
        forall i | 0 <= i < |bookings|
          ensures bookings[i].startTime == bookings[i].endTime
        {
          if i < n {
            assert front[i] == bookings[i];
          } else {
            assert i == n;
          }
        }
      } else if b.startTime == b.endTime {
        assert exists i :: 0 <= i < n && front[i].startTime != front[i].endTime;
      }
    }
  }

  /** A forward booking lasts the minutes between its times, zero only
      when its two times are the same text. */
  lemma DurationOfClock(b: Booking)
    requires ForwardClock(b)
    ensures Duration(b) == Some(ClockMinutes(b.endTime) - ClockMinutes(b.startTime))
    ensures Duration(b).value == 0 <==> b.startTime == b.endTime
  {
    ClockParses(b.startTime);
    ClockParses(b.endTime);
    ClockOrder(b.startTime, b.endTime);
  }

  // ---- the hour cells ----

  /** One booking covers `hour` when `startH <= hour < endH` on the hour
      fields alone; the minutes play no part, and NaN covers nothing. */
  predicate CoversHour(b: Booking, hour: int) {
    var startH := TimelineSelector.HourField(b.startTime);
    var endH := TimelineSelector.HourField(b.endTime);
    startH.Some? && endH.Some? && startH.value <= hour < endH.value
  }

  /** `isHourBooked`: some booking of the date covers the hour. */
  predicate IsHourBooked(bookings: seq<Booking>, dateStr: string, hour: int) {
    var dateBookings := BookingsForDate(bookings, dateStr);
    exists i :: 0 <= i < |dateBookings| && CoversHour(dateBookings[i], hour)
  }

  /** On well-formed times an hour is booked exactly when a live booking of
      that date starts in that hour or earlier and ends in a later hour. */
  lemma IsHourBookedMeaning(bookings: seq<Booking>, dateStr: string, hour: int)
    requires forall b :: b in bookings ==> IsClock(b.startTime) && IsClock(b.endTime)
    ensures IsHourBooked(bookings, dateStr, hour) <==>
            exists b :: b in bookings && OnDate(b, dateStr) &&
                        HourOf(b.startTime) <= hour < HourOf(b.endTime)
  {
    var dateBookings := BookingsForDate(bookings, dateStr);
    if IsHourBooked(bookings, dateStr, hour) {
      var i :| 0 <= i < |dateBookings| && CoversHour(dateBookings[i], hour);
      var b := dateBookings[i];
      assert b in bookings && OnDate(b, dateStr);
      CoversHourOfClock(b, hour);
    }
    if b :| b in bookings && OnDate(b, dateStr) && HourOf(b.startTime) <= hour < HourOf(b.endTime) {
      assert b in dateBookings;
      var i :| 0 <= i < |dateBookings| && dateBookings[i] == b;
      CoversHourOfClock(b, hour);
    }
  }

  /** On well-formed times the hour fields are the hours. */
  lemma CoversHourOfClock(b: Booking, hour: int)
    requires IsClock(b.startTime) && IsClock(b.endTime)
    ensures CoversHour(b, hour) <==> HourOf(b.startTime) <= hour < HourOf(b.endTime)
  {
    TimelineSelector.HourFieldOfClock(b.startTime);
    TimelineSelector.HourFieldOfClock(b.endTime);
  }

  /** A booking from 14:30 to 15:30 books the hour-14 cell and leaves the
      hour-15 cell free, though it runs until half past 15. */
  lemma HalfHourBookingCells(b: Booking)
    requires b.startTime == "14:30" && b.endTime == "15:30"
    ensures CoversHour(b, 14) && !CoversHour(b, 15)
  {
    assert IsClock(b.startTime) && HourOf(b.startTime) == 14;
    assert IsClock(b.endTime) && HourOf(b.endTime) == 15;
    TimelineSelector.HourFieldOfClock(b.startTime);
    TimelineSelector.HourFieldOfClock(b.endTime);
  }

  /** `isOperatingHour`: false on a closed or missing day, else
      `openH <= hour < closeH` on the hour fields of the opening times. */
  function IsOperatingHour(operatingHours: seq<OperatingHours>, date: int, hour: int): (r: bool)
    ensures r ==> TimelineSelector.IsOperatingDay(operatingHours, date)
    ensures TimelineSelector.IsOperatingDay(operatingHours, date) ==>
      var hours := GetOperatingHoursForDay(operatingHours, GetDay(date)).value;
      IsClock(hours.openTime) && IsClock(hours.closeTime) ==>
        (r <==> HourOf(hours.openTime) <= hour < HourOf(hours.closeTime))
  {
    var hours := GetOperatingHoursForDay(operatingHours, GetDay(date));
    if hours.None? || hours.value.isClosed then false
    else
      var openH := TimelineSelector.HourField(hours.value.openTime);
      var closeH := TimelineSelector.HourField(hours.value.closeTime);
      OpeningHourFields(hours.value);
      openH.Some? && closeH.Some? && openH.value <= hour < closeH.value
  }

  /** The hour fields of well-formed opening and closing times are their hours. */
  lemma OpeningHourFields(h: OperatingHours)
    ensures IsClock(h.openTime) && IsClock(h.closeTime) ==>
      TimelineSelector.HourField(h.openTime) == Some(HourOf(h.openTime)) &&
      TimelineSelector.HourField(h.closeTime) == Some(HourOf(h.closeTime))
  {
    if IsClock(h.openTime) && IsClock(h.closeTime) {
      TimelineSelector.HourFieldOfClock(h.openTime);
      TimelineSelector.HourFieldOfClock(h.closeTime);
    }
  }

  /** `date < now && !(isTodayRow && hour >= currentHour)`, where the row is
      today's when its date falls on the local day of `now`. */
  predicate IsPastCell(date: int, now: int, hour: int) {
    date < now && !(DayOf(date) == DayOf(now) && hour >= GetHours(now))
  }

  /** Every hour of an earlier day is past, no hour of a later day is, and
      on today's row the hours before the current hour are past (when the
      row's own moment is already behind `now`). */
  lemma IsPastCellMeaning(date: int, now: int, hour: int)
    ensures DayOf(date) < DayOf(now) ==> IsPastCell(date, now, hour)
    ensures DayOf(date) > DayOf(now) ==> !IsPastCell(date, now, hour)
    ensures DayOf(date) == DayOf(now) ==> (IsPastCell(date, now, hour) <==> date < now && hour < GetHours(now))
  {
    DayAndTime(date);
    DayAndTime(now);
    if DayOf(date) < DayOf(now) {
      assert date < (DayOf(date) + 1) * MsPerDay <= DayOf(now) * MsPerDay <= now;
    } else if DayOf(date) > DayOf(now) {
      assert now < (DayOf(now) + 1) * MsPerDay <= DayOf(date) * MsPerDay <= date;
    }
  }

  datatype CellClass = NonOperating | Booked | Past | Available

  /** `cellClass`: non-operating first, then booked, then past, else available. */
  function CellClassOf(isOp: bool, isOpHour: bool, isBooked: bool, isPast: bool): (r: CellClass)
    ensures r == NonOperating <==> !isOp || !isOpHour
    ensures r == Booked <==> isOp && isOpHour && isBooked
    ensures r == Past <==> isOp && isOpHour && !isBooked && isPast
    ensures r == Available <==> isOp && isOpHour && !isBooked && !isPast
  {
    if !isOp || !isOpHour then NonOperating
    else if isBooked then Booked
    else if isPast then Past
    else Available
  }

  /** The class of the cell at `hour` on the row of `date`. */
  function CellAt(operatingHours: seq<OperatingHours>, bookings: seq<Booking>, date: int, dateStr: string,
                  now: int, hour: int): CellClass
  {
    CellClassOf(TimelineSelector.IsOperatingDay(operatingHours, date), IsOperatingHour(operatingHours, date, hour),
                IsHourBooked(bookings, dateStr, hour), IsPastCell(date, now, hour))
  }

  /** The click handler calls `onCellClick` when the hour is operating, not
      booked and not past. */
  predicate ClickCalls(operatingHours: seq<OperatingHours>, bookings: seq<Booking>, date: int, dateStr: string,
                       now: int, hour: int)
  {
    IsOperatingHour(operatingHours, date, hour) && !IsHourBooked(bookings, dateStr, hour) && !IsPastCell(date, now, hour)
  }

  /** Though the click test leaves out `isOp`, a click reaches the callback
      exactly on the cells drawn as available: an operating hour implies an
      operating day. */
  lemma ClickOnlyOnAvailable(operatingHours: seq<OperatingHours>, bookings: seq<Booking>, date: int,
                             dateStr: string, now: int, hour: int)
    ensures ClickCalls(operatingHours, bookings, date, dateStr, now, hour) <==>
            CellAt(operatingHours, bookings, date, dateStr, now, hour) == Available
  {
  }

  // ---- period navigation ----

  /** The window's start; unlike the booking selector, it may move before today. */
  class DateWindow {
    var currentStartDate: int
    const daysToShow: int

    /** `startDate` defaults to now and `daysToShow` to 14. */
    constructor(startDate: int, daysToShow: int)
      ensures currentStartDate == startDate && this.daysToShow == daysToShow
    {
      currentStartDate := startDate;
      this.daysToShow := daysToShow;
    }

    /** `goToPrevious`: `daysToShow` days back, with no lower bound. */
    method GoToPrevious()
      modifies this
      ensures currentStartDate == old(currentStartDate) - daysToShow * MsPerDay
      ensures DayOf(currentStartDate) == DayOf(old(currentStartDate)) - daysToShow
    {
      SetDateShift(currentStartDate, -daysToShow);
      DayShift(currentStartDate, -daysToShow);
      currentStartDate := SetDate(currentStartDate, GetDate(currentStartDate) - daysToShow);
    }

    /** `goToNext`: `daysToShow` days on. */
    method GoToNext()
      modifies this
      ensures currentStartDate == old(currentStartDate) + daysToShow * MsPerDay
      ensures DayOf(currentStartDate) == DayOf(old(currentStartDate)) + daysToShow
    {
      SetDateShift(currentStartDate, daysToShow);
      DayShift(currentStartDate, daysToShow);
      currentStartDate := SetDate(currentStartDate, GetDate(currentStartDate) + daysToShow);
    }

    /** `goToToday`: the window starts at the current moment. */
    method GoToToday(now: int)
      modifies this
      ensures currentStartDate == now
    {
      currentStartDate := now;
    }
  }
}
