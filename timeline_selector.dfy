/** The decisions of the booking timeline
    (src/features/hairSalon/components/BookingTimelineSelector.tsx): the
    local date key of a column, the columns shown, the hour range and the
    10-minute rows, which cells are open, free, past or booked, the booking
    tooltip, the period navigation and the click gate. The slot and booking
    caches the component fetches are maps from date keys, passed in. */
module TimelineSelector {
  import opened Collections
  import opened Text
  import opened Types
  import opened Calendar
  import opened TimeSlotUtils
  import BookingService

  // ---- toLocalDateString ----

  /** `${year}-${month}-${day}` with month and day `padStart(2, '0')`. */
  function DateText(year: int, month: nat, day: nat): string {
    IntToString(year) + "-" + Pad2(month) + "-" + Pad2(day)
  }

  /** `toLocalDateString(date)`: the local calendar date as YYYY-MM-DD
      (the calendar date format of ISO 8601, extended). */
  function ToLocalDateString(date: int): string {
    DateText(GetFullYear(date), GetMonth(date) + 1, GetDate(date))
  }

  /** A date text splits at '-' into the year digits and two-digit month and
      day fields, each of which `Number` reads back. */
  lemma DateTextFields(year: int, month: int, day: int)
    requires year >= 0 && 1 <= month <= 12 && 1 <= day <= 31
    ensures Split(DateText(year, month, day), '-') == [NatToString(year), Pad2(month), Pad2(day)]
    ensures |Pad2(month)| == 2 && |Pad2(day)| == 2
    ensures NumberValue(NatToString(year)) == Some(year)
    ensures NumberValue(Pad2(month)) == Some(month) && NumberValue(Pad2(day)) == Some(day)
  {
    NatToStringFacts(year);
    Pad2Value(month);
    Pad2Value(day);
    NumberValueDigits(NatToString(year));
    NumberValueDigits(Pad2(month));
    NumberValueDigits(Pad2(day));
    Pad2Digits(month);
    Pad2Digits(day);
    BookingService.SplitDate(DateText(year, month, day), NatToString(year), Pad2(month), Pad2(day));
  }

  /** Distinct dates have distinct texts. */
  lemma DateTextInjective(y1: int, m1: int, d1: int, y2: int, m2: int, d2: int)
    requires y1 >= 0 && 1 <= m1 <= 12 && 1 <= d1 <= 31
    requires y2 >= 0 && 1 <= m2 <= 12 && 1 <= d2 <= 31
    ensures DateText(y1, m1, d1) == DateText(y2, m2, d2) <==> y1 == y2 && m1 == m2 && d1 == d2
  {
    DateTextFields(y1, m1, d1);
    DateTextFields(y2, m2, d2);
    if DateText(y1, m1, d1) == DateText(y2, m2, d2) {
      assert NumberValue(NatToString(y1)) == NumberValue(NatToString(y2));
      assert NumberValue(Pad2(m1)) == NumberValue(Pad2(m2));
      assert NumberValue(Pad2(d1)) == NumberValue(Pad2(d2));
    }
  }

  /** Two time values from year 0 on get the same date key exactly when they
      fall on the same local day. */
  lemma SameDateKey(a: int, b: int)
    requires GetFullYear(a) >= 0 && GetFullYear(b) >= 0
    ensures ToLocalDateString(a) == ToLocalDateString(b) <==> DayOf(a) == DayOf(b)
  {
    var ca, cb := LocalDate(a), LocalDate(b);
    DateTextInjective(ca.year, ca.month, ca.day, cb.year, cb.month, cb.day);
  }

  /** The weekday `getAvailableSlots` computes from a column's date key is the
      column's own weekday (from year 100 on, where `new Date(y, m, d)` takes
      the year as written). */
  lemma DateKeyWeekday(date: int)
    requires GetFullYear(date) >= 100
    ensures BookingService.DateWeekday(ToLocalDateString(date)) == Some(GetDay(date))
  {
    var c := LocalDate(date);
    DateTextFields(c.year, c.month, c.day);
    BookingService.DateWeekdayOfFields(ToLocalDateString(date), c.year, c.month, c.day);
  }

  // ---- the columns ----

  /** `dates`: `daysToShow` local midnights, one a day, from the day of
      `currentStartDate`. */
  method Dates(currentStartDate: int, daysToShow: int) returns (result: seq<int>)
    ensures |result| == if daysToShow > 0 then daysToShow else 0
    ensures forall i :: 0 <= i < |result| ==> result[i] == TimeValue(DayOf(currentStartDate) + i, 0)
  {
    result := [];
    var i := 0;
    while i < daysToShow
      invariant 0 <= i <= if daysToShow > 0 then daysToShow else 0
      invariant |result| == i
      invariant forall j :: 0 <= j < i ==> result[j] == TimeValue(DayOf(currentStartDate) + j, 0)
    {
      var date := StartOfDay(currentStartDate);
      SetDateShift(date, i);
      TimeValueShift(DayOf(currentStartDate), i, 0);
      date := SetDate(date, GetDate(date) + i);
      result := result + [date];
      i := i + 1;
    }
  }

  // ---- the hour range ----

  predicate IsOpenEntry(oh: OperatingHours) {
    !oh.isClosed
  }

  /** `operatingHours.filter(oh => !oh.isClosed)`. */
  function ActiveHours(operatingHours: seq<OperatingHours>): (r: seq<OperatingHours>)
    ensures forall oh :: oh in r <==> oh in operatingHours && !oh.isClosed
  {
    FilterMembers(operatingHours, IsOpenEntry);
    Filter(operatingHours, IsOpenEntry)
  }

  /** `const [h] = time.split(':').map(Number)`: the hour field, `None` for NaN. */
  function HourField(time: string): Option<int> {
    NumberValue(Split(time, ':')[0])
  }

  /** The hour field of a well-formed time is its hour. */
  lemma HourFieldOfClock(time: string)
    requires IsClock(time)
    ensures HourField(time) == Some(HourOf(time))
  {
    ClockSplit(time);
  }

  function OpenHour(oh: OperatingHours): Option<int> {
    HourField(oh.openTime)
  }

  function CloseHour(oh: OperatingHours): Option<int> {
    HourField(oh.closeTime)
  }

  /** A running minimum from `init` over the parsed values of `f`; NaN never
      compares smaller. */
  function Least<T>(xs: seq<T>, f: T -> Option<int>, init: int): int
    decreases |xs|
  {
    if xs == [] then init
    else
      var m := Least(xs[..|xs| - 1], f, init);
      var h := f(xs[|xs| - 1]);
      if h.Some? && h.value < m then h.value else m
  }

  /** A running maximum from `init`; NaN never compares larger. */
  function Greatest<T>(xs: seq<T>, f: T -> Option<int>, init: int): int
    decreases |xs|
  {
    if xs == [] then init
    else
      var m := Greatest(xs[..|xs| - 1], f, init);
      var h := f(xs[|xs| - 1]);
      if h.Some? && h.value > m then h.value else m
  }

  /** `minOpen` after the `forEach` over `active`: starts at 24 and takes
      every smaller opening hour. */
  function MinOpen(active: seq<OperatingHours>): int {
    Least(active, OpenHour, 24)
  }

  /** `maxClose` after the `forEach`: starts at 0 and takes every larger
      closing hour. */
  function MaxClose(active: seq<OperatingHours>): int {
    Greatest(active, CloseHour, 0)
  }

  lemma {:induction false} LeastIsMinimum<T>(xs: seq<T>, f: T -> Option<int>, init: int)
    ensures Least(xs, f, init) <= init
    ensures forall j :: 0 <= j < |xs| && f(xs[j]).Some? ==> Least(xs, f, init) <= f(xs[j]).value
    ensures Least(xs, f, init) == init || exists j :: 0 <= j < |xs| && f(xs[j]) == Some(Least(xs, f, init))
    decreases |xs|
  {
    if xs != [] {
      var front := xs[..|xs| - 1];
      LeastIsMinimum(front, f, init);
      assert forall j :: 0 <= j < |front| ==> front[j] == xs[j];
    }
  }

  lemma {:induction false} GreatestIsMaximum<T>(xs: seq<T>, f: T -> Option<int>, init: int)
    ensures Greatest(xs, f, init) >= init
    ensures forall j :: 0 <= j < |xs| && f(xs[j]).Some? ==> Greatest(xs, f, init) >= f(xs[j]).value
    ensures Greatest(xs, f, init) == init || exists j :: 0 <= j < |xs| && f(xs[j]) == Some(Greatest(xs, f, init))
    decreases |xs|
  {
    if xs != [] {
      var front := xs[..|xs| - 1];
      GreatestIsMaximum(front, f, init);
      assert forall j :: 0 <= j < |front| ==> front[j] == xs[j];
    }
  }

  /** `minOpen` is at most 24 and every parsed opening hour, and it is 24 or
      one of them. */
  lemma MinOpenIsMinimum(active: seq<OperatingHours>)
    ensures MinOpen(active) <= 24
    ensures forall j :: 0 <= j < |active| && HourField(active[j].openTime).Some? ==>
              MinOpen(active) <= HourField(active[j].openTime).value
    ensures MinOpen(active) == 24 ||
            exists j :: 0 <= j < |active| && HourField(active[j].openTime) == Some(MinOpen(active))
  {
    LeastIsMinimum(active, OpenHour, 24);
    assert forall j :: 0 <= j < |active| ==> OpenHour(active[j]) == HourField(active[j].openTime);
  }

  /** `maxClose` is at least 0 and every parsed closing hour, and it is 0 or
      one of them. */
  lemma MaxCloseIsMaximum(active: seq<OperatingHours>)
    ensures MaxClose(active) >= 0
    ensures forall j :: 0 <= j < |active| && HourField(active[j].closeTime).Some? ==>
              MaxClose(active) >= HourField(active[j].closeTime).value
    ensures MaxClose(active) == 0 ||
            exists j :: 0 <= j < |active| && HourField(active[j].closeTime) == Some(MaxClose(active))
  {
    GreatestIsMaximum(active, CloseHour, 0);
    assert forall j :: 0 <= j < |active| ==> CloseHour(active[j]) == HourField(active[j].closeTime);
  }

  /** `timeRange`: 9 to 18 when no day is open; otherwise the smallest opening
      hour and the largest closing hour of the open days, minutes ignored. */
  method TimeRange(operatingHours: seq<OperatingHours>) returns (start: int, end: int)
    ensures ActiveHours(operatingHours) == [] ==> start == 9 && end == 18
    ensures ActiveHours(operatingHours) != [] ==>
      start == MinOpen(ActiveHours(operatingHours)) && end == MaxClose(ActiveHours(operatingHours))
  {
    var activeHours := ActiveHours(operatingHours);
    if |activeHours| == 0 {
      return 9, 18;
    }
    start, end := Bounds(activeHours);
  }

  /** The `forEach` over the open days that widens `minOpen` and `maxClose`. */
  method Bounds(activeHours: seq<OperatingHours>) returns (minOpen: int, maxClose: int)
    ensures minOpen == MinOpen(activeHours) && maxClose == MaxClose(activeHours)
  {
    minOpen := 24;
    maxClose := 0;
    var i := 0;
    while i < |activeHours|
      invariant 0 <= i <= |activeHours|
      invariant minOpen == MinOpen(activeHours[..i]) && maxClose == MaxClose(activeHours[..i])
    {
      var openH := OpenHour(activeHours[i]);
      var closeH := CloseHour(activeHours[i]);
      LeastStep(activeHours, i, OpenHour, 24);
      GreatestStep(activeHours, i, CloseHour, 0);
      if openH.Some? && openH.value < minOpen {
        minOpen := openH.value;
      }
      if closeH.Some? && closeH.value > maxClose {
        maxClose := closeH.value;
      }
      i := i + 1;
    }
    assert activeHours[..i] == activeHours;
  }

  lemma LeastStep<T>(xs: seq<T>, i: nat, f: T -> Option<int>, init: int)
    requires i < |xs|
    ensures Least(xs[..i + 1], f, init) ==
      var m := Least(xs[..i], f, init);
      if f(xs[i]).Some? && f(xs[i]).value < m then f(xs[i]).value else m
  {
    assert xs[..i + 1][..i] == xs[..i];
  }

  lemma GreatestStep<T>(xs: seq<T>, i: nat, f: T -> Option<int>, init: int)
    requires i < |xs|
    ensures Greatest(xs[..i + 1], f, init) ==
      var m := Greatest(xs[..i], f, init);
      if f(xs[i]).Some? && f(xs[i]).value > m then f(xs[i]).value else m
  {
    assert xs[..i + 1][..i] == xs[..i];
  }

  /** On well-formed times the range spans every open day's hours: it starts
      no later than any opening hour and ends no earlier than any closing hour. */
  lemma TimeRangeSpans(active: seq<OperatingHours>, j: nat)
    requires j < |active| && IsClock(active[j].openTime) && IsClock(active[j].closeTime)
    ensures MinOpen(active) <= HourOf(active[j].openTime)
    ensures MaxClose(active) >= HourOf(active[j].closeTime)
  {
    HourFieldOfClock(active[j].openTime);
    HourFieldOfClock(active[j].closeTime);
    MinOpenIsMinimum(active);
    MaxCloseIsMaximum(active);
  }

  // ---- the 10-minute rows ----

  /** `h.toString().padStart(2, '0')`. */
  function HourLabel(h: int): string {
    PadStart2(IntToString(h))
  }

  /** Hour `h` with minute mark `j`: ":00", ":10", ... ":50" for `j` from 0 to 5. */
  function Mark(h: int, j: nat): string {
    HourLabel(h) + [':', DigitChar(j % 6), '0']
  }

  /** The `k`-th row label from hour `start`. */
  function RowLabel(start: int, k: nat): string {
    Mark(start + k / 6, k % 6)
  }

  /** The six entries of hour `h`, in push order. */
  function HourEntries<T>(h: int, f: (int, nat) -> T): (r: seq<T>)
    ensures |r| == 6
  {
    [f(h, 0), f(h, 1), f(h, 2), f(h, 3), f(h, 4), f(h, 5)]
  }

  /** The entries of the hours from `start` up to `h`, hour by hour. */
  function Rows<T>(start: int, h: int, f: (int, nat) -> T): (r: seq<T>)
    ensures |r| == if h > start then 6 * (h - start) else 0
    decreases h - start
  {
    if h <= start then [] else Rows(start, h - 1, f) + HourEntries(h - 1, f)
  }

  /** Entry `k` is hour `start + k / 6` with mark `k % 6`. */
  lemma {:induction false} RowsIndex<T>(start: int, h: int, f: (int, nat) -> T, k: nat)
    requires k < |Rows(start, h, f)|
    ensures Rows(start, h, f)[k] == f(start + k / 6, k % 6)
    decreases h - start
  {
    var front := Rows(start, h - 1, f);
    if k < |front| {
      RowsIndex(start, h - 1, f, k);
    } else {
      var q, j := h - 1 - start, k - |front|;
      assert k == 6 * q + j && j < 6;
      assert k / 6 == q && k % 6 == j;
    }
  }

  lemma RowsStep<T>(start: int, h: int, f: (int, nat) -> T)
    requires start <= h
    ensures Rows(start, h + 1, f) == Rows(start, h, f) + HourEntries(h, f)
  {
  }

  lemma RowsEmpty<T>(start: int, h: int, f: (int, nat) -> T)
    requires h <= start
    ensures Rows(start, h, f) == []
  {
  }

  /** `timeSlots`: for each hour of `[start, end)` the six pushes :00 to :50. */
  method TimeSlots(start: int, end: int) returns (slots: seq<string>)
    ensures slots == Rows(start, end, Mark)
  {
    slots := [];
    var h := start;
    while h < end
      invariant start <= h <= if end > start then end else start
      invariant slots == Rows(start, h, Mark)
    {
      RowsStep(start, h, Mark);
      slots := slots + HourEntries(h, Mark);
      h := h + 1;
    }
    if end <= start {
      RowsEmpty(start, end, Mark);
    }
  }

  /** So time slot `k` is the `k`-th row label. */
  lemma TimeSlotAt(start: int, end: int, k: nat)
    requires k < |Rows(start, end, Mark)|
    ensures Rows(start, end, Mark)[k] == RowLabel(start, k)
  {
    RowsIndex(start, end, Mark, k);
  }

  /** From hour 0 to hour 100 every row is a well-formed time, 10 minutes
      after the one before. */
  lemma RowLabelClock(start: int, k: nat)
    requires 0 <= start && start + k / 6 < 100
    ensures IsClock(RowLabel(start, k)) && ClockMinutes(RowLabel(start, k)) == 60 * start + 10 * k
  {
    var h := start + k / 6;
    Pad2Digits(h);
    var j := k % 6;
    var s := RowLabel(start, k);
    assert s == [DigitChar(h / 10), DigitChar(h % 10), ':', DigitChar(j), '0'];
    assert HourOf(s) == h && MinuteOf(s) == 10 * j;
  }

  /** So the rows strictly increase as the source compares them, as strings. */
  lemma RowsIncrease(start: int, end: int, k1: nat, k2: nat)
    requires 0 <= start && end <= 100 && k1 < k2 < 6 * (end - start)
    ensures StrLess(RowLabel(start, k1), RowLabel(start, k2))
  {
    RowLabelClock(start, k1);
    RowLabelClock(start, k2);
    ClockOrder(RowLabel(start, k1), RowLabel(start, k2));
  }

  // ---- cell predicates ----

  /** `isOperatingDay`: the first entry for the date's weekday exists and is
      not closed. */
  function IsOperatingDay(operatingHours: seq<OperatingHours>, date: int): (r: bool)
    ensures r <==> exists i :: 0 <= i < |operatingHours| && operatingHours[i].dayOfWeek == GetDay(date) &&
                              !operatingHours[i].isClosed &&
                              forall j :: 0 <= j < i ==> operatingHours[j].dayOfWeek != GetDay(date)
  {
    IsShopOpenOnDay(operatingHours, GetDay(date))
  }

  /** `isOperatingTime`: false on a closed or missing day, else
      `openTime <= time < closeTime` as strings. */
  function IsOperatingTime(operatingHours: seq<OperatingHours>, date: int, time: string): (r: bool)
    ensures r ==> IsOperatingDay(operatingHours, date)
    ensures IsOperatingDay(operatingHours, date) ==>
      var hours := GetOperatingHoursForDay(operatingHours, GetDay(date)).value;
      IsClock(time) && IsClock(hours.openTime) && IsClock(hours.closeTime) ==>
        (r <==> ClockMinutes(hours.openTime) <= ClockMinutes(time) < ClockMinutes(hours.closeTime))
  {
    var hours := GetOperatingHoursForDay(operatingHours, GetDay(date));
    if hours.None? || hours.value.isClosed then false
    else
      var h := hours.value;
      if IsClock(time) && IsClock(h.openTime) && IsClock(h.closeTime) then
        ClockOrder(h.openTime, time);
        ClockOrder(time, h.closeTime);
        StrLessEq(h.openTime, time) && StrLess(time, h.closeTime)
      else
        StrLessEq(h.openTime, time) && StrLess(time, h.closeTime)
  }

  /** `isSlotAvailable`: false when no slots are loaded for the date's key,
      else the `isAvailable` of the first slot at `time` (false when none). */
  function IsSlotAvailable(slotsMap: map<string, seq<TimeSlot>>, date: int, time: string): (r: bool)
    ensures r <==> (ToLocalDateString(date) in slotsMap &&
      var slots := slotsMap[ToLocalDateString(date)];
      exists k :: 0 <= k < |slots| && slots[k].time == time && slots[k].isAvailable &&
                  forall j :: 0 <= j < k ==> slots[j].time != time)
  {
    var dateStr := ToLocalDateString(date);
    if dateStr !in slotsMap then false
    else
      var slot := Find(slotsMap[dateStr], (s: TimeSlot) => s.time == time);
      slot.Some? && slot.value.isAvailable
  }

  /** `isPastTime`: the date at `time`'s hours and minutes (seconds cleared)
      is before `now`; a field that does not parse makes an invalid date,
      which is never before anything. */
  function IsPastTime(date: int, time: string, now: int): bool {
    var parts := Split(time, ':');
    var hours := NumberValue(parts[0]);
    var minutes := if |parts| > 1 then NumberValue(parts[1]) else None;
    hours.Some? && minutes.Some? && SetHours(date, hours.value, minutes.value) < now
  }

  /** For a well-formed time: the slot's instant on the date's day is before `now`. */
  lemma IsPastTimeOfClock(date: int, time: string, now: int)
    requires IsClock(time)
    ensures IsPastTime(date, time, now) <==> TimeValue(DayOf(date), ClockMinutes(time) * MsPerMinute) < now
  {
    ClockSplit(time);
    assert HourOf(time) * MsPerHour + MinuteOf(time) * MsPerMinute == ClockMinutes(time) * MsPerMinute;
  }

  /** A time whose hour or minute field `Number` reads as NaN (no colon,
      say, or letters: `ParseClockNaN`) is never past. */
  lemma IsPastTimeMalformed(date: int, time: string, now: int)
    requires ParseClock(time).None?
    ensures !IsPastTime(date, time, now)
  {
    assert ParseClock(time) == ClockOfFields(Split(time, ':'));
  }

  /** `isSelected`: both selections are set and the key and time match. */
  function IsSelected(date: int, time: string, selectedDate: Option<int>, selectedTime: Option<string>): bool {
    selectedDate.Some? && Truthy(selectedTime) &&
    ToLocalDateString(date) == ToLocalDateString(selectedDate.value) && time == selectedTime.value
  }

  /** From year 0 on, selected means the same local day and the same time. */
  lemma IsSelectedMeaning(date: int, time: string, selectedDate: Option<int>, selectedTime: Option<string>)
    requires GetFullYear(date) >= 0
    requires selectedDate.Some? ==> GetFullYear(selectedDate.value) >= 0
    ensures IsSelected(date, time, selectedDate, selectedTime) <==>
      selectedDate.Some? && selectedTime.Some? && selectedTime.value != "" &&
      DayOf(date) == DayOf(selectedDate.value) && time == selectedTime.value
  {
    if selectedDate.Some? {
      SameDateKey(date, selectedDate.value);
    }
  }

  // ---- bookings on the grid ----

  /** A live booking covering `time`: `startTime <= time < endTime` as strings. */
  predicate CoversTime(b: Booking, time: string) {
    b.status != Cancelled && StrLessEq(b.startTime, time) && StrLess(time, b.endTime)
  }

  /** `getBookingForTime`: none without loaded bookings for the date's key, else
      the first live booking covering `time`. */
  function GetBookingForTime(bookingsMap: map<string, seq<Booking>>, date: int, time: string): (r: Option<Booking>)
    ensures r.None? <==> (ToLocalDateString(date) !in bookingsMap ||
      forall j :: 0 <= j < |bookingsMap[ToLocalDateString(date)]| ==> !CoversTime(bookingsMap[ToLocalDateString(date)][j], time))
    ensures r.Some? ==>
      var bookings := bookingsMap[ToLocalDateString(date)];
      exists i :: 0 <= i < |bookings| && bookings[i] == r.value && CoversTime(r.value, time) &&
                  forall j :: 0 <= j < i ==> !CoversTime(bookings[j], time)
  {
    var dateStr := ToLocalDateString(date);
    if dateStr !in bookingsMap then None
    else Find(bookingsMap[dateStr], (b: Booking) => CoversTime(b, time))
  }

  /** On well-formed times, covering is the minute interval `[start, end)`. */
  lemma CoversTimeMinutes(b: Booking, time: string)
    requires IsClock(b.startTime) && IsClock(b.endTime) && IsClock(time)
    ensures CoversTime(b, time) <==>
      b.status != Cancelled && ClockMinutes(b.startTime) <= ClockMinutes(time) < ClockMinutes(b.endTime)
  {
    ClockOrder(b.startTime, time);
    ClockOrder(time, b.endTime);
  }

  // ---- the tooltip ----

  const Reserved := "예약됨"

  /** The tooltip's parts: the time range; the customer name when allowed
      and set; the service name when set; "예약됨" when names are hidden. */
  function TooltipParts(booking: Booking, showCustomerInfo: bool): (r: seq<string>)
    ensures |r| >= 1 && r[0] == booking.startTime + " - " + booking.endTime
    ensures showCustomerInfo && Truthy(booking.customerName) ==> |r| >= 2 && r[1] == booking.customerName.value
    ensures !showCustomerInfo ==> r[|r| - 1] == Reserved
    ensures !showCustomerInfo ==>
      forall k :: 1 <= k < |r| - 1 ==> booking.service.Some? && r[k] == booking.service.value.name
  {
    var parts := [booking.startTime + " - " + booking.endTime];
    var parts := if showCustomerInfo && Truthy(booking.customerName) then parts + [booking.customerName.value] else parts;
    var parts := if booking.service.Some? && booking.service.value.name != "" then parts + [booking.service.value.name] else parts;
    if !showCustomerInfo then parts + [Reserved] else parts
  }

  /** `getBookingTooltip`: the parts joined with " | ". */
  function GetBookingTooltip(booking: Booking, showCustomerInfo: bool): string {
    Join(TooltipParts(booking, showCustomerInfo), " | ")
  }

  /** Without customer information the tooltip ends with "예약됨". */
  lemma TooltipHiddenEndsReserved(booking: Booking)
    ensures EndsWith(GetBookingTooltip(booking, false), Reserved)
  {
    JoinEndsWithLast(TooltipParts(booking, false), " | ");
  }

  /** With customer information it ends with the last shown field instead:
      the service name, else the customer name, else the time range. */
  lemma TooltipShownEndsWithLastField(booking: Booking)
    ensures EndsWith(GetBookingTooltip(booking, true),
      if booking.service.Some? && booking.service.value.name != "" then booking.service.value.name
      else if Truthy(booking.customerName) then booking.customerName.value
      else booking.startTime + " - " + booking.endTime)
  {
    JoinEndsWithLast(TooltipParts(booking, true), " | ");
  }

  /** So the converse fails: a service named "예약됨" ends a shown tooltip
      with it too. */
  lemma TooltipShownCanEndReserved(booking: Booking)
    requires booking.service.Some? && booking.service.value.name == Reserved
    ensures EndsWith(GetBookingTooltip(booking, true), Reserved)
  {
    TooltipShownEndsWithLastField(booking);
  }

  // ---- period navigation ----

  /** `goToPrevious`'s new start: `daysToShow` days back, but never before
      today's midnight. */
  function PreviousStart(currentStartDate: int, daysToShow: int, now: int): (r: int)
    ensures r >= StartOfDay(now)
    ensures r == StartOfDay(now) || r == currentStartDate - daysToShow * MsPerDay
    ensures currentStartDate - daysToShow * MsPerDay >= StartOfDay(now) ==> r == currentStartDate - daysToShow * MsPerDay
  {
    SetDateShift(currentStartDate, -daysToShow);
    var newDate := SetDate(currentStartDate, GetDate(currentStartDate) - daysToShow);
    var today := StartOfDay(now);
    if newDate < today then today else newDate
  }

  /** `goToNext`'s new start: `daysToShow` days on, same time of day. */
  function NextStart(currentStartDate: int, daysToShow: int): (r: int)
    ensures r == currentStartDate + daysToShow * MsPerDay
  {
    SetDateShift(currentStartDate, daysToShow);
    SetDate(currentStartDate, GetDate(currentStartDate) + daysToShow)
  }

  /** Going back after going forward returns to a start that was not before today. */
  lemma PreviousUndoesNext(currentStartDate: int, daysToShow: int, now: int)
    requires currentStartDate >= StartOfDay(now)
    ensures PreviousStart(NextStart(currentStartDate, daysToShow), daysToShow, now) == currentStartDate
  {
  }

  /** The day-window navigation state of the timeline. */
  class Timeline {
    var currentStartDate: int
    const daysToShow: int

    /** `useState(() => new Date())`: the window starts now (not at midnight). */
    constructor(now: int, daysToShow: int)
      ensures currentStartDate == now && this.daysToShow == daysToShow
    {
      currentStartDate := now;
      this.daysToShow := daysToShow;
    }

    method GoToPrevious(now: int)
      modifies this
      ensures currentStartDate == PreviousStart(old(currentStartDate), daysToShow, now)
      ensures currentStartDate >= StartOfDay(now)
    {
      currentStartDate := PreviousStart(currentStartDate, daysToShow, now);
    }

    method GoToNext()
      modifies this
      ensures currentStartDate == NextStart(old(currentStartDate), daysToShow)
    {
      currentStartDate := NextStart(currentStartDate, daysToShow);
    }

    method GoToToday(now: int)
      modifies this
      ensures currentStartDate == StartOfDay(now) && IsAtStart(now)
    {
      currentStartDate := StartOfDay(now);
    }

    /** `isAtStart` (disables the previous button): the window's first day is
        today or earlier. */
    predicate IsAtStart(now: int)
      reads this
    {
      StartOfDay(currentStartDate) <= StartOfDay(now)
    }

    /** At the start means on or before today's day number. */
    lemma IsAtStartMeaning(now: int)
      ensures IsAtStart(now) <==> DayOf(currentStartDate) <= DayOf(now)
    {
      var a, b := DayOf(currentStartDate), DayOf(now);
      assert StartOfDay(currentStartDate) == a * MsPerDay && StartOfDay(now) == b * MsPerDay;
      if a <= b {
        assert a * MsPerDay <= b * MsPerDay;
      } else {
        assert a * MsPerDay >= (b + 1) * MsPerDay;
      }
    }
  }

  // ---- the click gate ----

  /** `handleSlotClick` calls `onSelect` exactly when this holds: an operating
      day and time, not past, and the loaded slot marked available. */
  function SlotClickSelects(operatingHours: seq<OperatingHours>, slotsMap: map<string, seq<TimeSlot>>,
                            date: int, time: string, now: int): (r: bool)
    ensures r ==> IsOperatingDay(operatingHours, date) && IsSlotAvailable(slotsMap, date, time)
    ensures r && IsClock(time) ==>
      TimeValue(DayOf(date), ClockMinutes(time) * MsPerMinute) >= now &&
      var hours := GetOperatingHoursForDay(operatingHours, GetDay(date)).value;
      (IsClock(hours.openTime) && IsClock(hours.closeTime) ==>
        ClockMinutes(hours.openTime) <= ClockMinutes(time) < ClockMinutes(hours.closeTime))
  {
    if !IsOperatingDay(operatingHours, date) || !IsOperatingTime(operatingHours, date, time) then false
    else if IsPastTime(date, time, now) then false
    else
      if IsClock(time) then
        IsPastTimeOfClock(date, time, now);
        IsSlotAvailable(slotsMap, date, time)
      else
        IsSlotAvailable(slotsMap, date, time)
  }

  /** When the date's slots are the ones the booking service computes for the
      date's weekday against `bookings`, a click selects only a start that no
      booking occupies and whose service fits before closing. */
  lemma ClickedSlotIsFree(shop: Shop, slotsMap: map<string, seq<TimeSlot>>, bookings: seq<Booking>,
                          date: int, time: string, now: int, duration: nat)
    requires forall j :: 0 <= j < |bookings| ==> BookingService.StepsEnd(bookings[j], shop.slotIntervalMinutes)
    requires HoursGridOk(shop.operatingHours, GetDay(date), shop.slotIntervalMinutes)
    requires ClockHours(shop.operatingHours, GetDay(date))
    requires ToLocalDateString(date) in slotsMap
    requires slotsMap[ToLocalDateString(date)] ==
      BookingService.DaySlots(shop, Some(GetDay(date)), duration,
                              BookingService.BookedSlots(bookings, shop.slotIntervalMinutes))
    requires SlotClickSelects(shop.operatingHours, slotsMap, date, time, now)
    ensures IsClock(time)
    ensures forall j :: 0 <= j < |bookings| ==> !BookingService.Occupies(bookings[j], shop.slotIntervalMinutes, time)
    ensures BookingService.Fits(time, duration, GetOperatingHoursForDay(shop.operatingHours, GetDay(date)).value.closeTime)
  {
    var slots := slotsMap[ToLocalDateString(date)];
    var k :| 0 <= k < |slots| && slots[k].time == time && slots[k].isAvailable;
    BookingService.DaySlotAvailable(bookings, shop, GetDay(date), duration, slots, k);
  }
}
