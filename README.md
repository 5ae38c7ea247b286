# Hair salon booking core, modelled in Dafny

This project models the scheduling and booking core of a hair-salon booking
web application. The model covers these parts:

- **Booking store.** An in-memory list of bookings. It answers the per-customer,
  per-shop and by-id queries and computes the available time slots of a shop
  for a date. It creates pending bookings and moves bookings to confirmed,
  cancelled or completed.
- **Shop directory.** The in-memory tables of shops, stylists and services,
  with their create, merge-update and soft-delete operations.
- **Booking wizard.** The customer's booking wizard: its step machine and its
  submit operation.
- **Schedule views.** The pure derivations behind the shop's timeline
  selector, the monthly schedule grid, the admin month page and the
  several-day timeline. These cover dates, hour ranges, slot rows, booked
  cells, cell classes, click handling and window navigation.
- **Customer booking list.** Sorting newest first, the upcoming/past split,
  and the cancel and create hooks.
- **Booking card.** The card's status badge and whether it offers to cancel.
- **Shared helpers.** The time-slot and date helpers everything above uses.

Modelling choices:

- **Strings.** Times and dates are strings, as in the source, and the
  string comparisons of the source are modelled as lexicographic order
  (`Text.StrLess`).
- **Well-formed times.** A well-formed time is `HH:MM` (`TimeSlotUtils.IsClock`).
  On such times the model proves that string order is minute order
  (`TimeSlotUtils.ClockOrder`).
- **Reading times.** `split(':').map(Number)` is modelled field by field
  (`TimeSlotUtils.ParseClock`): white space is trimmed, an empty field is 0,
  an optional sign before digits gives that integer, anything else is NaN
  (`None`), and only the first two fields count. A NaN time gives
  "NaN:NaN" from `addMinutesToTime` and no slots from `generateTimeSlots`.
- **Dates.** A JavaScript `Date` is a whole number of milliseconds of local
  wall-clock time. `Calendar` gives the proleptic Gregorian calendar behind
  `getDay`, `getDate`, `setDate` and the `new Date(y, m, d)` constructor,
  including its month overflow.
- **Classes.** Where the source mutates state, the model does too. These
  become classes whose methods update fields:
  - the module-level arrays of the services (`BookingService.BookingStore`,
    `ShopService.ShopDirectory`);
  - the wizard state (`BookingWizard.Wizard`);
  - the page navigation state (`TimelineSelector.Timeline`,
    `ScheduleManage.MonthNav`, `DateTimeline.DateWindow`);
  - the create hook (`MyBookings.CreateHook`).
- **Loops.** The source's loops are methods with loop invariants, proved
  against specification functions. These include:
  - the slot grid (`TimeSlotUtils.GenerateTimeSlots`);
  - the booked-time sweep (`BookingService.SweepBooking`,
    `BookingService.BookingStore.GetAvailableSlots`);
  - the month calendar (`DateUtils.GetMonthDates`);
  - the schedule grid's booking map (`ScheduleGrid.BuildBookingMap`);
  - the timeline's hour range and rows.

Parameters stand in for what the core reads from outside:

- the wall clock (`now`);
- generated ids (`id`, which must not be used yet);
- the UTC date strings produced by `toISOString` (`isoDate`, `dateStr`).

## Model

| member | source | states |
|---|---|---|
| Types.OrNull | src/features/hairSalon/services/hairBookingService.ts:160 | `x \|\| null`: the value is kept exactly when it is a non-empty string, else null |
| Types.PhoneOf | src/features/hairSalon/hooks/useHairBookings.ts:82 | `user.phone \|\| ''`: an absent or empty phone becomes the empty string |
| Text.StrLessTrichotomy | src/core/utils/timeSlotUtils.ts:68-70 | JS string `<` is a strict total order: exactly one of a<b, a==b, b<a |
| Text.StrLessEqMeaning | src/core/utils/timeSlotUtils.ts:69 | `<=` on strings is `<` or equality |
| Text.NatToStringFacts | src/core/utils/timeSlotUtils.ts:16-18 | `String(n)` is all digits, denotes n, has no leading zero, and has 1 digit below 10 and 2 below 100 |
| Text.IntToString | src/core/utils/timeSlotUtils.ts:65 | `String(i)` of a negative number is a minus sign before the digits of its magnitude |
| Text.PadStart2Facts | src/core/utils/timeSlotUtils.ts:17 | `padStart(2, '0')` gives length max(2, \|s\|), ends with s and is preceded only by zeros |
| Text.Pad2Digits | src/core/utils/timeSlotUtils.ts:17 | a number below 100 padded to 2 is its tens digit then its units digit |
| Text.Pad2Wide | src/core/utils/timeSlotUtils.ts:65 | a number of 100 or more is not padded, so `addMinutesToTime` can produce hours of 3 digits |
| Text.Split | src/core/utils/timeSlotUtils.ts:9 | `split` with a one-character separator: at least one field; its meaning is `Text.SplitJoin` and `Text.SplitNone` |
| Text.SplitJoin | src/core/utils/timeSlotUtils.ts:9 | `split(sep)` then `join(sep)` gives back the original string |
| Text.SplitNone | src/core/utils/dateUtils.ts:11 | a string without the separator splits into itself alone |
| Text.JoinEndsWithLast | src/features/hairSalon/components/BookingTimelineSelector.tsx:235 | a join ends with its last part |
| Text.ParseIntDigits | src/core/utils/dateUtils.ts:12 | `parseInt` of a digit string is its decimal value |
| Text.ParseIntNaN | src/core/utils/dateUtils.ts:12 | `parseInt` of a string that starts with no sign, space or digit is NaN |
| Text.NumberValue | src/core/utils/timeSlotUtils.ts:9 | `Number` on integer texts: trimmed, "" is 0, an optional sign before digits, else NaN; its meaning is `Text.NumberValueDigits`, `Text.NumberValueInt` and the `TimeSlotUtils.ParseClock…` lemmas |
| Text.NumberValueDigits | src/core/utils/timeSlotUtils.ts:9 | `Number` of a non-empty digit string is its decimal value |
| Text.NumberValueInt | src/core/utils/timeSlotUtils.ts:61-65 | `Number(String(i))` is i, padded to two characters or not |
| Text.JsRem | src/core/utils/timeSlotUtils.ts:64 | JS `%` truncates: it is Dafny's `%` on non-negatives and takes the dividend's sign |
| Text.FloorJsRem60 | src/core/utils/timeSlotUtils.ts:63-64 | floored hours and JS `%` minutes rebuild the count, an hour short when it is negative and not a whole hour |
| Collections.FilterMembers | src/features/hairSalon/services/hairBookingService.ts:44-48 | an element is in `filter(p)` exactly when it is in the list and satisfies p |
| Collections.FilterConcat | src/features/hairSalon/services/hairBookingService.ts:44 | filtering a concatenation filters each part |
| Collections.FilterComplement | src/features/hairSalon/hooks/useHairBookings.ts:39-53 | two complementary filters together hold every element exactly as often as the list |
| Collections.FilterComplementCount | src/features/hairSalon/hooks/useHairBookings.ts:39-53 | two complementary filters have lengths summing to the list's |
| Collections.FindIndex | src/features/hairSalon/services/hairShopService.ts:57 | `findIndex` gives the first index satisfying p, or -1 (None) exactly when none does |
| Collections.Find | src/features/hairSalon/services/hairBookingService.ts:68 | `find` gives the first element satisfying p, or undefined exactly when none does |
| Collections.FlattenMembers | src/features/hairSalon/services/hairBookingService.ts:110-118 | a value is among the collected times exactly when one booking's sweep contains it |
| Collections.FlattenConcat | src/features/hairSalon/components/ScheduleGrid.tsx:53-76 | the writes of two runs of bookings are the first run's writes then the second's |
| Calendar.DaysInMonth | src/core/utils/dateUtils.ts:61 | a month has 28 to 31 days |
| Calendar.DaysBeforeYearClosedForm | src/core/utils/dateUtils.ts:60 | days before a year equal 365 per year plus the Gregorian leap days |
| Calendar.CivilOf | src/features/hairSalon/components/BookingTimelineSelector.tsx:9-11 | a day number has a valid year, month and day that names it |
| Calendar.CivilOfDayNumber | src/features/hairSalon/components/BookingTimelineSelector.tsx:9-11 | the year, month and day of a date are recovered from its day number |
| Calendar.LocalDateDay | src/features/hairSalon/components/BookingTimelineSelector.tsx:9-11 | `getFullYear`, `getMonth` and `getDate` name the day of the time value |
| Calendar.Weekday | src/core/utils/dateUtils.ts:64 | a weekday is 0..6 |
| Calendar.WeekdayShift | src/core/utils/dateUtils.ts:64 | n days later the weekday is n further on, modulo 7 |
| Calendar.GetDay | src/core/utils/dateUtils.ts:64 | `getDay` is 0..6 |
| Calendar.GetMonth | src/features/hairSalon/components/BookingTimelineSelector.tsx:10 | `getMonth` is 0..11 |
| Calendar.GetDate | src/features/hairSalon/components/BookingTimelineSelector.tsx:11 | `getDate` is 1..31 |
| Calendar.GetHours | src/features/hairSalon/components/ScheduleGrid.tsx:118 | `getHours` is 0..23 |
| Calendar.GetMinutes | src/features/hairSalon/components/ScheduleGrid.tsx:118 | `getMinutes` is 0..59 |
| Calendar.StartOfDay | src/core/utils/dateUtils.ts:45-46 | `setHours(0,0,0,0)` is the midnight of the same day, at or before the time |
| Calendar.SetDateShift | src/core/utils/dateUtils.ts:28 | `setDate(getDate() + n)` moves exactly n days, across month and year ends |
| Calendar.MakeDayLinear | src/core/utils/dateUtils.ts:71 | day d of a month is d - 1 days after its first day, for any d (overflow included) |
| Calendar.MonthEnd | src/core/utils/dateUtils.ts:61 | `new Date(y, m + 1, 0)` is the last day of month m |
| TimeSlotUtils.ClockMinutes | src/core/utils/timeSlotUtils.ts:9-10 | a well-formed time denotes fewer than 6000 minutes |
| TimeSlotUtils.FormatClockParses | src/core/utils/timeSlotUtils.ts:61-65 | a formatted minute count parses back to that count; a negative count that is not a whole hour reads back an hour early |
| TimeSlotUtils.FormatClockIsClock | src/core/utils/timeSlotUtils.ts:16-18 | below 6000 minutes the formatted time is well formed, with the same minutes |
| TimeSlotUtils.ClockRoundTrip | src/core/utils/timeSlotUtils.ts:9-18 | formatting the minutes of a well-formed time gives back the same text |
| TimeSlotUtils.ClockSplit | src/core/utils/timeSlotUtils.ts:9-10 | `split(':').map(Number)` of a well-formed time is its hour and minute |
| TimeSlotUtils.ClockParses | src/core/utils/timeSlotUtils.ts:9-12 | the colon parse of a well-formed time gives its minutes |
| TimeSlotUtils.ParseClock | src/core/utils/timeSlotUtils.ts:9-12 | `h * 60 + m` of the first two `Number` fields, NaN when one is missing or NaN; its meaning is `TimeSlotUtils.ParseFields` and `TimeSlotUtils.ClockParses` |
| TimeSlotUtils.ParseFields | src/core/utils/timeSlotUtils.ts:61 | `h:m` with colon-free fields parses to Number(h) * 60 + Number(m), NaN when either field is NaN |
| TimeSlotUtils.ParseClockNaN | src/core/utils/timeSlotUtils.ts:61 | a time without a minute field, or with a field `Number` cannot read, is NaN |
| TimeSlotUtils.ParseClockEmptyMinutes | src/core/utils/timeSlotUtils.ts:61 | "10:" is 600 minutes, since `Number("")` is 0 |
| TimeSlotUtils.ParseClockSpaces | src/core/utils/timeSlotUtils.ts:61 | " 9:30" is 570 minutes, since `Number` trims white space |
| TimeSlotUtils.ParseClockThirdField | src/core/utils/timeSlotUtils.ts:61 | a third colon field is ignored |
| TimeSlotUtils.ClockOrder | src/core/utils/timeSlotUtils.ts:68-70 | on well-formed times, string `<`, `<=` and `==` are minute order |
| TimeSlotUtils.SlotMinutes | src/core/utils/timeSlotUtils.ts:12-20 | the minute grid is empty exactly when the start is not before the end |
| TimeSlotUtils.SlotMinutesAt | src/core/utils/timeSlotUtils.ts:12-20 | entry i of the grid is start + i * interval, and before the end |
| TimeSlotUtils.SlotMinutesLength | src/core/utils/timeSlotUtils.ts:12-20 | the grid's entries reach the end: one more interval would pass it |
| TimeSlotUtils.SlotGridEntry | src/core/utils/timeSlotUtils.ts:12-20 | each generated slot is a well-formed time start + i * interval inside [open, close) |
| TimeSlotUtils.SlotGridStep | src/core/utils/timeSlotUtils.ts:12-20 | consecutive slots are one interval apart |
| TimeSlotUtils.GenerateTimeSlots | src/core/utils/timeSlotUtils.ts:3-23 | the result is the slot grid from the parsed opening to the parsed closing minute at the interval; no slots when either time is NaN |
| TimeSlotUtils.SlotLoop | src/core/utils/timeSlotUtils.ts:12-20 | the `while` loop returns the formatted minute grid from the start to the end |
| TimeSlotUtils.SlotMinutesStep | src/core/utils/timeSlotUtils.ts:15-20 | one turn of the loop moves the current minute from the rest of the grid to the done part |
| TimeSlotUtils.TimeSlotGridOfClocks | src/core/utils/timeSlotUtils.ts:3-23 | on well-formed times the loop ends iff the interval is positive or the day is empty, and the slots are the grid of their minutes |
| TimeSlotUtils.TimeSlotsInHours | src/core/utils/timeSlotUtils.ts:3-23 | every slot between well-formed opening and closing times is a well-formed time in [open, close) |
| TimeSlotUtils.GetOperatingHoursForDay | src/core/utils/timeSlotUtils.ts:25-30 | the first entry for the weekday, or undefined exactly when there is none |
| TimeSlotUtils.IsShopOpenOnDay | src/core/utils/timeSlotUtils.ts:32-38 | open iff the first entry for the weekday exists and is not closed |
| TimeSlotUtils.GetAvailableTimeSlots | src/core/utils/timeSlotUtils.ts:40-58 | no slots on a closed or missing day; otherwise the day's generated slots in order, each available iff its time is not booked |
| TimeSlotUtils.AvailableTimeSlotsInHours | src/core/utils/timeSlotUtils.ts:40-58 | with well-formed hours every offered slot is a well-formed time inside the opening hours |
| TimeSlotUtils.AddMinutesToTime | src/core/utils/timeSlotUtils.ts:60-66 | "NaN:NaN" when the time does not parse; else, for a non-negative sum, the result parses to the start plus the minutes and ends in `:MM`, and it is well formed below 6000 minutes |
| TimeSlotUtils.FormatClockFacts | src/core/utils/timeSlotUtils.ts:63-65 | from zero on, the clock text of a count parses back to it and ends in `:MM`; below 6000 it is well formed |
| TimeSlotUtils.AddMinutesBeforeMidnight | src/core/utils/timeSlotUtils.ts:62-65 | a sum below zero reads back an hour early unless it is a whole number of hours |
| TimeSlotUtils.AddMinutesPastMidnight | src/core/utils/timeSlotUtils.ts:60-66 | there is no wrap at midnight: 23:30 plus 60 minutes is "24:30" |
| TimeSlotUtils.IsTimeInRange | src/core/utils/timeSlotUtils.ts:68-70 | on well-formed times, in range iff start <= time < end in minutes |
| TimeSlotUtils.FormatDuration | src/core/utils/timeSlotUtils.ts:72-79 | "N분" below an hour, "H시간" on whole hours, else "H시간 M분", with H = N div 60 and M = N mod 60 |
| TimeSlotUtils.FormatDurationReadsBack | src/core/utils/timeSlotUtils.ts:72-79 | the printed text, read back as hours and minutes, gives the same number of minutes |
| IsoDates.DateTextOrder | src/features/hairSalon/admin/ScheduleManagePage.tsx:46 | on `YYYY-MM-DD` texts, string order is order of (year, month, day) |
| IsoDates.BuiltDateFields | src/features/hairSalon/admin/ScheduleManagePage.tsx:40-43 | a built `${year}-${MM}-${DD}` text has those fields |
| IsoDates.ParseDateTime | src/features/hairSalon/hooks/useHairBookings.ts:16 | on `YYYY-MM-DD` dates and `HH:MM` times, `new Date(date + 'T' + time)` is valid exactly for a real date and a time up to 24:00 |
| IsoDates.ParseDateTimeFields | src/features/hairSalon/hooks/useHairBookings.ts:16 | a parsed date-time has the text's year, month, day, hour and minute |
| IsoDates.DateNumberOrder | src/features/hairSalon/hooks/useHairBookings.ts:15-18 | on valid dates, string order is day order |
| IsoDates.DateTimeOrder | src/features/hairSalon/hooks/useHairBookings.ts:15-18 | parsed moments compare as (date, time) text pairs compare |
| IsoDates.MidnightTwice | src/features/hairSalon/hooks/useHairBookings.ts:16 | `D T24:00` and `D+1 T00:00` are the same moment, though D sorts before D+1 |
| DateUtils.FormatTime | src/core/utils/dateUtils.ts:10-16 | the result ends with the minutes field (or "undefined" without a colon) |
| DateUtils.DisplayHourOfDay | src/core/utils/dateUtils.ts:14 | the 12-hour display is 1..12, agrees with the hour modulo 12, and keeps 1..12 |
| DateUtils.MeridiemMeaning | src/core/utils/dateUtils.ts:13 | "오전" exactly for a number hour below 12 (NaN gives "오후") |
| DateUtils.FormatTimeOfClock | src/core/utils/dateUtils.ts:10-16 | on a well-formed time: meridiem, 12-hour display hour, colon, the minutes text |
| DateUtils.FormatTimeFields | src/core/utils/dateUtils.ts:10-16 | the output is meridiem, display hour, colon and the second split part |
| DateUtils.FormatTimeWithoutColon | src/core/utils/dateUtils.ts:11 | `formatTime("9")` is "오전 9:undefined" |
| DateUtils.FormatTimeNotANumber | src/core/utils/dateUtils.ts:12-14 | `formatTime("ab:30")` is "오후 NaN:30" |
| DateUtils.AddDays | src/core/utils/dateUtils.ts:26-30 | `addDays` moves the time value by whole days |
| DateUtils.AddDaysDay | src/core/utils/dateUtils.ts:26-30 | the day number moves by n and the time of day is kept |
| DateUtils.IsPast | src/core/utils/dateUtils.ts:44-48 | before today's midnight; its meaning is `DateUtils.IsPastMeaning` |
| DateUtils.IsPastMeaning | src/core/utils/dateUtils.ts:44-48 | past iff the date's day is before today's |
| DateUtils.GetWeekDates | src/core/utils/dateUtils.ts:50-56 | seven dates, the first the start and each one day after the previous |
| DateUtils.WeekConsecutive | src/core/utils/dateUtils.ts:50-56 | the i-th week date is i days later at the same time of day |
| DateUtils.MonthLength | src/core/utils/dateUtils.ts:61 | a month length is 28..31 |
| DateUtils.MonthEnds | src/core/utils/dateUtils.ts:60-61 | `firstDay` and `lastDay` are the midnights of the month's first and last days, with their weekdays |
| DateUtils.LastDayGetDate | src/core/utils/dateUtils.ts:70 | `lastDay.getDate()` is the month's length |
| DateUtils.LastDayIndex | src/core/utils/dateUtils.ts:61 | day 0 of the next month is the last day of this one |
| DateUtils.LastDayDate | src/core/utils/dateUtils.ts:61 | the last day of the month has the month's length as its day of month |
| DateUtils.DayOfMonth | src/core/utils/dateUtils.ts:71 | `new Date(year, month, day)` is the midnight day - 1 days after the first |
| DateUtils.GetMonthDates | src/core/utils/dateUtils.ts:58-81 | the three loops build the padded month grid |
| DateUtils.WeekPaddedWeeks | src/core/utils/dateUtils.ts:63-78 | the padded run is whole weeks, Sunday first and Saturday last |
| DateUtils.MonthGridWeeks | src/core/utils/dateUtils.ts:58-81 | the month grid is whole weeks, at least four, from a Sunday to a Saturday |
| DateUtils.MonthGridDays | src/core/utils/dateUtils.ts:69-72 | day d of the month sits after the padding and is that date |
| DateUtils.MonthDayDate | src/core/utils/dateUtils.ts:71 | `new Date(year, month, day)` within the month has that calendar date |
| DateUtils.MonthGridConsecutive | src/core/utils/dateUtils.ts:58-81 | consecutive grid entries are one day apart |
| BookingService.SplitDate | src/features/hairSalon/services/hairBookingService.ts:98 | a `Y-M-D` date of digit fields splits into its three fields |
| BookingService.ConstructorWeekday | src/features/hairSalon/services/hairBookingService.ts:99 | `new Date(y, m - 1, d).getDay()` is the weekday of that calendar day |
| BookingService.DateWeekdayOfNumbers | src/features/hairSalon/services/hairBookingService.ts:97-99 | the weekday of the date text is that of the constructed date |
| BookingService.DateWeekdayOfFields | src/features/hairSalon/services/hairBookingService.ts:97-99 | for a valid year and month, it is the weekday of the calendar day |
| BookingService.SlotGridMembers | src/features/hairSalon/services/hairBookingService.ts:121-126 | a time is in the grid iff it is start + k * interval before the end |
| BookingService.Occupies | src/features/hairSalon/services/hairBookingService.ts:113-117 | the sweep from the start reaches the time before the end; `BookingService.BookedTimesMembers` ties it to the loop |
| BookingService.BookedTimesMembers | src/features/hairSalon/services/hairBookingService.ts:113-117 | a time is swept for a booking iff the booking occupies it |
| BookingService.SweepBooking | src/features/hairSalon/services/hairBookingService.ts:113-117 | the `while` loop collects the booking's occupied times |
| BookingService.SweepStep | src/features/hairSalon/services/hairBookingService.ts:114-117 | one sweep step keeps the collected times a prefix of the grid |
| BookingService.BookedSlotsMembers | src/features/hairSalon/services/hairBookingService.ts:110-118 | a time is booked iff some relevant booking's sweep contains it |
| BookingService.Fits | src/features/hairSalon/services/hairBookingService.ts:135 | `addMinutesToTime(time, duration) <= closeTime` on strings; its meaning is `BookingService.FitsMeaning` |
| BookingService.FitsMeaning | src/features/hairSalon/services/hairBookingService.ts:135 | the string test `endTime <= closeTime` is start + duration <= closing in minutes |
| BookingService.ShopBookingsMembers | src/features/hairSalon/services/hairBookingService.ts:44-48 | a shop listing holds exactly the shop's bookings, on the date when one is given |
| BookingService.ShopBookingsAppend | src/features/hairSalon/services/hairBookingService.ts:171 | after a push, the listing gains the new booking exactly when it matches |
| BookingService.BookingById | src/features/hairSalon/services/hairBookingService.ts:68 | a booking with that id from the store, or none exactly when no id matches |
| BookingService.BookingByIdAppend | src/features/hairSalon/services/hairBookingService.ts:171 | a pushed booking with a fresh id is found by its id |
| BookingService.CreatedBookingFields | src/features/hairSalon/services/hairBookingService.ts:153-169 | the new booking is pending, carries the request's fields, has `null` stylist or notes when empty, and no `updatedAt`; its end is "NaN:NaN" for an unparsable start, else parses to start + duration |
| BookingService.DaySlots | src/features/hairSalon/services/hairBookingService.ts:121-136 | no slots without a weekday or on a closed day; else the day's generated slots, each available iff not booked and the service ends by closing |
| BookingService.DaySlotAvailable | src/features/hairSalon/services/hairBookingService.ts:110-136 | with well-formed hours, a slot is a well-formed time, and it is available iff no relevant booking occupies it and the service fits before closing |
| BookingService.BookingStore.constructor | src/features/hairSalon/services/hairBookingService.ts:8 | the store starts with the seed bookings |
| BookingService.BookingStore.GetBookingsByCustomer | src/features/hairSalon/services/hairBookingService.ts:13-38 | exactly the customer's bookings |
| BookingService.BookingStore.GetBookingsByShop | src/features/hairSalon/services/hairBookingService.ts:40-64 | exactly the shop's bookings, on the date when one is given |
| BookingService.BookingStore.GetBookingById | src/features/hairSalon/services/hairBookingService.ts:66-83 | a stored booking with that id, or null exactly when there is none |
| BookingService.BookingStore.BookingIndex | src/features/hairSalon/services/hairBookingService.ts:179 | the index of a booking with the id, or -1 exactly when there is none |
| BookingService.BookingStore.RelevantBookings | src/features/hairSalon/services/hairBookingService.ts:102-107 | bookings of the shop and date that are not cancelled and, with a stylist, are that stylist's |
| BookingService.BookingStore.GetAvailableSlots | src/features/hairSalon/services/hairBookingService.ts:85-137 | nothing for a missing shop; else the day's slots against the swept times of the relevant bookings |
| BookingService.BookingStore.CreateBooking | src/features/hairSalon/services/hairBookingService.ts:139-175 | throws and leaves the store when the service is missing; else appends and returns the new pending booking |
| BookingService.BookingStore.SetStatus | src/features/hairSalon/services/hairBookingService.ts:177-220 | null and no change for an unknown id; else only that booking gets the status and `updatedAt` |
| BookingService.BookingStore.ConfirmBooking | src/features/hairSalon/services/hairBookingService.ts:177-190 | the booking becomes confirmed, whatever its prior status |
| BookingService.BookingStore.CancelBooking | src/features/hairSalon/services/hairBookingService.ts:192-205 | the booking becomes cancelled, whatever its prior status |
| BookingService.BookingStore.CompleteBooking | src/features/hairSalon/services/hairBookingService.ts:207-220 | the booking becomes completed, whatever its prior status |
| ShopService.IntervalOrDefault | src/features/hairSalon/services/hairShopService.ts:44 | `data.slotIntervalMinutes \|\| 30`: a missing or zero interval becomes 30 |
| ShopService.MergeShop | src/features/hairSalon/services/hairShopService.ts:60-64 | the spread keeps id, owner and creation time, and stamps `updatedAt` |
| ShopService.MergeStylist | src/features/hairSalon/services/hairShopService.ts:113 | the spread keeps id, shop and creation time |
| ShopService.MergeService | src/features/hairSalon/services/hairShopService.ts:163 | the spread keeps id, shop and creation time |
| ShopService.MergeShopNothing | src/features/hairSalon/services/hairShopService.ts:60-64 | an empty patch changes only `updatedAt` |
| ShopService.MergeShopIdempotent | src/features/hairSalon/services/hairShopService.ts:60-64 | applying the same patch twice equals applying it once |
| ShopService.MergeShopTwice | src/features/hairSalon/services/hairShopService.ts:60-64 | two patches in a row equal one combined patch, the later field winning |
| ShopService.UpdateKeepsZeroInterval | src/features/hairSalon/services/hairShopService.ts:44 | an update can set the interval to 0, which creation would have replaced by 30 |
| ShopService.MergeStylistAndServiceNothing | src/features/hairSalon/services/hairShopService.ts:113 | empty patches change nothing, and stylist and service merges are idempotent |
| ShopService.ShopDirectory.constructor | src/features/hairSalon/services/hairShopService.ts:8-10 | the tables start with the seed rows |
| ShopService.ShopDirectory.GetShops | src/features/hairSalon/services/hairShopService.ts:17-21 | exactly the active shops |
| ShopService.ShopDirectory.GetShopById | src/features/hairSalon/services/hairShopService.ts:23-27 | an active shop with the id, or null exactly when there is none |
| ShopService.ShopDirectory.GetShopsByOwner | src/features/hairSalon/services/hairShopService.ts:29-33 | exactly the owner's shops, active or not |
| ShopService.ShopDirectory.ShopIndex | src/features/hairSalon/services/hairShopService.ts:57 | the index of a shop with the id, or -1 exactly when there is none |
| ShopService.ShopDirectory.CreateShop | src/features/hairSalon/services/hairShopService.ts:35-53 | appends an active shop with the defaulted interval, found afterwards by id; ids stay unique |
| ShopService.ShopDirectory.UpdateShop | src/features/hairSalon/services/hairShopService.ts:55-67 | null for an unknown id; else only that shop is merged with the patch |
| ShopService.ShopDirectory.DeleteShop | src/features/hairSalon/services/hairShopService.ts:69-77 | false for an unknown id; else only that shop is deactivated and no longer found by id |
| ShopService.ShopDirectory.GetStylistsByShop | src/features/hairSalon/services/hairShopService.ts:80-84 | exactly the shop's active stylists |
| ShopService.ShopDirectory.GetStylistById | src/features/hairSalon/services/hairShopService.ts:86-89 | an active stylist with the id, or null exactly when there is none |
| ShopService.ShopDirectory.StylistIndex | src/features/hairSalon/services/hairShopService.ts:110 | the index of a stylist with the id, or -1 exactly when there is none |
| ShopService.ShopDirectory.CreateStylist | src/features/hairSalon/services/hairShopService.ts:91-106 | appends an active stylist, found afterwards by id |
| ShopService.ShopDirectory.UpdateStylist | src/features/hairSalon/services/hairShopService.ts:108-116 | null for an unknown id; else only that stylist is merged |
| ShopService.ShopDirectory.DeleteStylist | src/features/hairSalon/services/hairShopService.ts:118-126 | false for an unknown id; else only that stylist is deactivated |
| ShopService.ShopDirectory.GetServicesByShop | src/features/hairSalon/services/hairShopService.ts:129-133 | exactly the shop's active services |
| ShopService.ShopDirectory.GetServiceById | src/features/hairSalon/services/hairShopService.ts:135-138 | an active service with the id, or null exactly when there is none |
| ShopService.ShopDirectory.ServiceIndex | src/features/hairSalon/services/hairShopService.ts:160 | the index of a service with the id, or -1 exactly when there is none |
| ShopService.ShopDirectory.CreateService | src/features/hairSalon/services/hairShopService.ts:140-156 | appends an active service, found afterwards by id |
| ShopService.ShopDirectory.UpdateService | src/features/hairSalon/services/hairShopService.ts:158-166 | null for an unknown id; else only that service is merged |
| ShopService.ShopDirectory.DeleteService | src/features/hairSalon/services/hairShopService.ts:168-176 | false for an unknown id; else only that service is deactivated |
| BookingWizard.StepIndex | src/features/hairSalon/contexts/HairBookingContext.tsx:35 | `STEPS.indexOf(step)` is the step's position in the order |
| BookingWizard.StepIndexOfSteps | src/features/hairSalon/contexts/HairBookingContext.tsx:35 | the index of the i-th step is i |
| BookingWizard.WithService | src/features/hairSalon/contexts/HairBookingContext.tsx:60-68 | selecting a service clears date and time and keeps the rest |
| BookingWizard.WithDate | src/features/hairSalon/contexts/HairBookingContext.tsx:70-76 | selecting a date clears the time and keeps the rest |
| BookingWizard.Next | src/features/hairSalon/contexts/HairBookingContext.tsx:94-102 | moves one step on, and stays on the last step |
| BookingWizard.Prev | src/features/hairSalon/contexts/HairBookingContext.tsx:104-112 | moves one step back, and stays on the first step |
| BookingWizard.PrevUndoesNext | src/features/hairSalon/contexts/HairBookingContext.tsx:94-112 | before the last step, back after next restores the state |
| BookingWizard.NextUndoesPrev | src/features/hairSalon/contexts/HairBookingContext.tsx:94-112 | after the first step, next after back restores the state |
| BookingWizard.NextTimesSaturates | src/features/hairSalon/contexts/HairBookingContext.tsx:94-102 | n nexts move min(n, remaining) steps and change nothing else |
| BookingWizard.FourNextsComplete | src/features/hairSalon/contexts/HairBookingContext.tsx:94-102 | four nexts from any step reach the last step |
| BookingWizard.BookingData | src/features/hairSalon/contexts/HairBookingContext.tsx:129-136 | the request carries the shop, service, date and time, with stylist and notes only when non-empty |
| BookingWizard.Wizard.constructor | src/features/hairSalon/contexts/HairBookingContext.tsx:51-54 | initial state, not loading, no error, no created booking |
| BookingWizard.Wizard.SetShopId | src/features/hairSalon/contexts/HairBookingContext.tsx:56-58 | sets only the shop id |
| BookingWizard.Wizard.SelectService | src/features/hairSalon/contexts/HairBookingContext.tsx:60-68 | applies `WithService`, nothing else changes |
| BookingWizard.Wizard.SelectDate | src/features/hairSalon/contexts/HairBookingContext.tsx:70-76 | applies `WithDate`, nothing else changes |
| BookingWizard.Wizard.SelectTime | src/features/hairSalon/contexts/HairBookingContext.tsx:78-80 | sets only the time |
| BookingWizard.Wizard.SelectStylist | src/features/hairSalon/contexts/HairBookingContext.tsx:82-84 | sets only the stylist |
| BookingWizard.Wizard.SetNotes | src/features/hairSalon/contexts/HairBookingContext.tsx:86-88 | sets only the notes |
| BookingWizard.Wizard.GoToStep | src/features/hairSalon/contexts/HairBookingContext.tsx:90-92 | sets only the step |
| BookingWizard.Wizard.NextStep | src/features/hairSalon/contexts/HairBookingContext.tsx:94-102 | applies `Next` |
| BookingWizard.Wizard.PrevStep | src/features/hairSalon/contexts/HairBookingContext.tsx:104-112 | applies `Prev` |
| BookingWizard.Wizard.SubmitBooking | src/features/hairSalon/contexts/HairBookingContext.tsx:114-154 | login error, or missing-fields error, with no booking made; else the store's create: on success the booking is the store's full record of the sent `BookingData` (stylist and notes only when non-empty, end = start + the service's duration), it is kept and the wizard is complete; on failure its message is the error |
| BookingWizard.Wizard.ResetBooking | src/features/hairSalon/contexts/HairBookingContext.tsx:156-160 | back to the initial state with no created booking and no error |
| TimelineSelector.ToLocalDateString | src/features/hairSalon/components/BookingTimelineSelector.tsx:8-13 | the local year, 2-digit month and 2-digit day joined by "-"; its meaning is `TimelineSelector.SameDateKey` |
| TimelineSelector.DateTextFields | src/features/hairSalon/components/BookingTimelineSelector.tsx:8-13 | the local date string splits into year, 2-digit month and 2-digit day, which read back as numbers |
| TimelineSelector.DateTextInjective | src/features/hairSalon/components/BookingTimelineSelector.tsx:8-13 | distinct dates give distinct date strings |
| TimelineSelector.SameDateKey | src/features/hairSalon/components/BookingTimelineSelector.tsx:8-13 | two times have the same date string iff they are on the same local day |
| TimelineSelector.DateKeyWeekday | src/features/hairSalon/components/BookingTimelineSelector.tsx:127-133 | the date string sent to the store gets the weekday of the date itself |
| TimelineSelector.Dates | src/features/hairSalon/components/BookingTimelineSelector.tsx:46-55 | the shown dates are the midnights of consecutive days from the start |
| TimelineSelector.ActiveHours | src/features/hairSalon/components/BookingTimelineSelector.tsx:59 | exactly the entries that are not closed |
| TimelineSelector.HourFieldOfClock | src/features/hairSalon/components/BookingTimelineSelector.tsx:66-67 | the hour read from a well-formed time is its hour |
| TimelineSelector.MinOpenIsMinimum | src/features/hairSalon/components/BookingTimelineSelector.tsx:64-70 | the earliest opening hour is at most 24, at most each opening hour, and one of them unless 24 |
| TimelineSelector.MaxCloseIsMaximum | src/features/hairSalon/components/BookingTimelineSelector.tsx:64-70 | the latest closing hour is at least 0, at least each closing hour, and one of them unless 0 |
| TimelineSelector.TimeRange | src/features/hairSalon/components/BookingTimelineSelector.tsx:58-73 | 9 to 18 with no open day; else from the earliest opening to the latest closing hour |
| TimelineSelector.Bounds | src/features/hairSalon/components/BookingTimelineSelector.tsx:65-70 | the `forEach` loop computes the earliest opening and latest closing hour |
| TimelineSelector.TimeRangeSpans | src/features/hairSalon/components/BookingTimelineSelector.tsx:58-73 | the range covers every open day's hours |
| TimelineSelector.TimeSlots | src/features/hairSalon/components/BookingTimelineSelector.tsx:76-87 | six 10-minute rows per hour of the range |
| TimelineSelector.TimeSlotAt | src/features/hairSalon/components/BookingTimelineSelector.tsx:76-87 | row k is hour start + k / 6, minute 10 * (k % 6) |
| TimelineSelector.RowLabelClock | src/features/hairSalon/components/BookingTimelineSelector.tsx:76-87 | each row label is a well-formed time, 10 minutes after the previous one |
| TimelineSelector.RowsIncrease | src/features/hairSalon/components/BookingTimelineSelector.tsx:76-87 | row labels increase in string order |
| TimelineSelector.IsOperatingDay | src/features/hairSalon/components/BookingTimelineSelector.tsx:162-166 | the date's weekday has an entry that is not closed |
| TimelineSelector.IsOperatingTime | src/features/hairSalon/components/BookingTimelineSelector.tsx:169-175 | on an operating day, open <= time < close by string order |
| TimelineSelector.IsSlotAvailable | src/features/hairSalon/components/BookingTimelineSelector.tsx:178-185 | the fetched slots of the date have a slot at that time marked available |
| TimelineSelector.IsPastTime | src/features/hairSalon/components/BookingTimelineSelector.tsx:188-194 | the date at the time's hours and minutes is before now, never for a NaN field; its meaning is `TimelineSelector.IsPastTimeOfClock` and `TimelineSelector.IsPastTimeMalformed` |
| TimelineSelector.IsPastTimeOfClock | src/features/hairSalon/components/BookingTimelineSelector.tsx:188-194 | a slot is past iff its moment on that day is before now |
| TimelineSelector.IsPastTimeMalformed | src/features/hairSalon/components/BookingTimelineSelector.tsx:188-194 | a time whose hour or minute `Number` reads as NaN is never past |
| TimelineSelector.IsSelected | src/features/hairSalon/components/BookingTimelineSelector.tsx:197-202 | both selections set, the same date string and the same time; its meaning is `TimelineSelector.IsSelectedMeaning` |
| TimelineSelector.IsSelectedMeaning | src/features/hairSalon/components/BookingTimelineSelector.tsx:197-202 | selected iff same local day as the selection and the same time |
| TimelineSelector.GetBookingForTime | src/features/hairSalon/components/BookingTimelineSelector.tsx:205-215 | the first booking of the date whose [start, end) holds the time, or none exactly when none does |
| TimelineSelector.CoversTimeMinutes | src/features/hairSalon/components/BookingTimelineSelector.tsx:211-213 | on well-formed times, the string test is start <= time < end in minutes |
| TimelineSelector.GetBookingTooltip | src/features/hairSalon/components/BookingTimelineSelector.tsx:218-236 | the tooltip parts joined with " \| "; its meaning is the `TimelineSelector.Tooltip…` lemmas |
| TimelineSelector.TooltipParts | src/features/hairSalon/components/BookingTimelineSelector.tsx:218-236 | starts with the time span; the customer's name comes second when shown; "예약됨" ends it when hidden |
| TimelineSelector.TooltipHiddenEndsReserved | src/features/hairSalon/components/BookingTimelineSelector.tsx:218-236 | without customer info the tooltip ends in "예약됨" |
| TimelineSelector.TooltipShownEndsWithLastField | src/features/hairSalon/components/BookingTimelineSelector.tsx:218-236 | with customer info the tooltip ends with its last present field |
| TimelineSelector.TooltipShownCanEndReserved | src/features/hairSalon/components/BookingTimelineSelector.tsx:218-236 | a service named "예약됨" makes a shown tooltip end in "예약됨" too |
| TimelineSelector.PreviousStart | src/features/hairSalon/components/BookingTimelineSelector.tsx:239-250 | back one window, clamped at today's midnight |
| TimelineSelector.NextStart | src/features/hairSalon/components/BookingTimelineSelector.tsx:252-256 | forward one window |
| TimelineSelector.PreviousUndoesNext | src/features/hairSalon/components/BookingTimelineSelector.tsx:239-256 | from today or later, previous undoes next |
| TimelineSelector.Timeline.constructor | src/features/hairSalon/components/BookingTimelineSelector.tsx:40 | the window starts now |
| TimelineSelector.Timeline.GoToPrevious | src/features/hairSalon/components/BookingTimelineSelector.tsx:239-250 | applies `PreviousStart`, never before today |
| TimelineSelector.Timeline.GoToNext | src/features/hairSalon/components/BookingTimelineSelector.tsx:252-256 | applies `NextStart` |
| TimelineSelector.Timeline.GoToToday | src/features/hairSalon/components/BookingTimelineSelector.tsx:258-262 | today's midnight, and the window is at its start |
| TimelineSelector.Timeline.IsAtStartMeaning | src/features/hairSalon/components/BookingTimelineSelector.tsx:275-281 | at start iff the window starts today or earlier |
| TimelineSelector.SlotClickSelects | src/features/hairSalon/components/BookingTimelineSelector.tsx:283-289 | a click selects only on an operating day, on a loaded slot marked available, not before now and within the day's opening hours |
| TimelineSelector.ClickedSlotIsFree | src/features/hairSalon/components/BookingTimelineSelector.tsx:283-289 | with well-formed hours, a selectable slot is a well-formed time occupied by no relevant booking, and the service fits before closing |
| ScheduleGrid.MonthDays | src/features/hairSalon/components/ScheduleGrid.tsx:37-45 | the month's days, from the first to the last, consecutive midnights |
| ScheduleGrid.MonthDaysDate | src/features/hairSalon/components/ScheduleGrid.tsx:37-45 | the k-th entry is `new Date(year, month, k + 1)` with that calendar date |
| ScheduleGrid.GridTimes | src/features/hairSalon/components/ScheduleGrid.tsx:48-50 | the rows are the 06:00 to 22:00 grid at 30 minutes |
| ScheduleGrid.GridTimesShape | src/features/hairSalon/components/ScheduleGrid.tsx:48-50 | 32 well-formed rows, row k at 6:00 + 30k minutes |
| ScheduleGrid.StylistPart | src/features/hairSalon/components/ScheduleGrid.tsx:57-58 | the key's stylist part is "any" exactly when no stylist is set or it is "any" |
| ScheduleGrid.BookingKeyInjective | src/features/hairSalon/components/ScheduleGrid.tsx:57-58 | keys of well-shaped dates and times are equal iff date, time and stylist part are |
| ScheduleGrid.TotalSlotsBounds | src/features/hairSalon/components/ScheduleGrid.tsx:63 | `ceil(duration / 30)` half-hours cover the duration and no more than one extra |
| ScheduleGrid.SpanCountBounds | src/features/hairSalon/components/ScheduleGrid.tsx:63-65 | every span index k starts before the service ends, and the spans reach its end |
| ScheduleGrid.SpanTimeAt | src/features/hairSalon/components/ScheduleGrid.tsx:66-69 | the text of span i is the clock text of start + 30i minutes |
| ScheduleGrid.SpanEntries | src/features/hairSalon/components/ScheduleGrid.tsx:61-73 | no spans without a service; else one span per following half-hour |
| ScheduleGrid.Entries | src/features/hairSalon/components/ScheduleGrid.tsx:57-73 | a booking writes its own cell first, then its spans |
| ScheduleGrid.BookingMap | src/features/hairSalon/components/ScheduleGrid.tsx:53-76 | the map of all the bookings' puts in order; its meaning is `ScheduleGrid.BookingMapSound`, `ScheduleGrid.BookingMapComplete` and `ScheduleGrid.LaterBookingOverwrites` |
| ScheduleGrid.MapOfLookup | src/features/hairSalon/components/ScheduleGrid.tsx:53-76 | a key is in the map iff some write used it, and holds the last write's cell |
| ScheduleGrid.EntriesLength | src/features/hairSalon/components/ScheduleGrid.tsx:61-73 | one write, plus ceil(duration / 30) - 1 span writes when there is a service |
| ScheduleGrid.BuildBookingMap | src/features/hairSalon/components/ScheduleGrid.tsx:53-76 | the loop builds the map of all writes in order |
| ScheduleGrid.PutBooking | src/features/hairSalon/components/ScheduleGrid.tsx:57-73 | one booking's writes are applied in order |
| ScheduleGrid.PutSpans | src/features/hairSalon/components/ScheduleGrid.tsx:65-72 | the `for` loop puts one span cell for each half hour 1 to ceil(duration / 30) - 1 after the start |
| ScheduleGrid.SlotTime | src/features/hairSalon/components/ScheduleGrid.tsx:66-69 | computes the span's time text |
| ScheduleGrid.BookingMapSound | src/features/hairSalon/components/ScheduleGrid.tsx:53-76 | every cell in the map belongs to one of the bookings and came from one of its writes |
| ScheduleGrid.EntriesOwnBooking | src/features/hairSalon/components/ScheduleGrid.tsx:57-73 | every write of a booking carries that booking |
| ScheduleGrid.BookingMapComplete | src/features/hairSalon/components/ScheduleGrid.tsx:53-76 | every write's key is in the map |
| ScheduleGrid.LaterBookingOverwrites | src/features/hairSalon/components/ScheduleGrid.tsx:53-76 | the map of two runs of bookings is the first run's map overridden by the second's |
| ScheduleGrid.EntryListsConcat | src/features/hairSalon/components/ScheduleGrid.tsx:53-76 | the per-booking writes of two runs are those of the first then of the second |
| ScheduleGrid.MapOfConcat | src/features/hairSalon/components/ScheduleGrid.tsx:53-76 | applying two runs of writes is the first run's map overridden by the second's |
| ScheduleGrid.SpansCoverService | src/features/hairSalon/components/ScheduleGrid.tsx:61-73 | for a parsed start, span k is the write for half-hour k + 1 after the start, begins inside the service, and the spans reach its end |
| ScheduleGrid.LookupCell | src/features/hairSalon/components/ScheduleGrid.tsx:210-212 | the stylist's key first, else the "any" key |
| ScheduleGrid.LookupCellSound | src/features/hairSalon/components/ScheduleGrid.tsx:210-212 | a found cell shows one of the bookings, written under that date and time for the stylist or for "any" |
| ScheduleGrid.IsPastCell | src/features/hairSalon/components/ScheduleGrid.tsx:118 | an earlier date text, or today and a time before the padded current time; its meaning is `ScheduleGrid.IsPastCellToday` |
| ScheduleGrid.IsPastCellToday | src/features/hairSalon/components/ScheduleGrid.tsx:118 | on today's row, a cell is past iff its time is before the current hour and minute |
| ScheduleGrid.NowLabelClock | src/features/hairSalon/components/ScheduleGrid.tsx:118 | the padded current time is a well-formed time of the current minutes |
| ScheduleGrid.GetCellClass | src/features/hairSalon/components/ScheduleGrid.tsx:115-139 | the class list of `ScheduleGrid.CellClasses` joined with spaces |
| ScheduleGrid.CellClasses | src/features/hairSalon/components/ScheduleGrid.tsx:115-139 | "schedule-cell", then exactly one of non-working, booked, past or available, by precedence |
| ScheduleGrid.HandleCellClick | src/features/hairSalon/components/ScheduleGrid.tsx:141-147 | a booking cell opens the booking, a span does nothing, a free working cell opens the slot |
| ScheduleManage.PrevMonth | src/features/hairSalon/admin/ScheduleManagePage.tsx:69-76 | the month before, with January wrapping to December of the previous year |
| ScheduleManage.NextMonth | src/features/hairSalon/admin/ScheduleManagePage.tsx:78-85 | the month after, with December wrapping to January of the next year |
| ScheduleManage.PrevNextInverse | src/features/hairSalon/admin/ScheduleManagePage.tsx:69-85 | previous and next month undo each other |
| ScheduleManage.MonthBookings | src/features/hairSalon/admin/ScheduleManagePage.tsx:40-47 | exactly the bookings between the month's start and end texts |
| ScheduleManage.MonthStartFields | src/features/hairSalon/admin/ScheduleManagePage.tsx:40-43 | the month start text is year, month + 1, day 1 |
| ScheduleManage.InMonth | src/features/hairSalon/admin/ScheduleManagePage.tsx:44-46 | `monthStart <= bookingDate < monthEnd` on strings; its meaning is `ScheduleManage.InMonthMeaning` |
| ScheduleManage.InMonthMeaning | src/features/hairSalon/admin/ScheduleManagePage.tsx:40-47 | a booking is in the month iff its date has that year and month |
| ScheduleManage.MonthNav.constructor | src/features/hairSalon/admin/ScheduleManagePage.tsx:21-22 | starts at the current year and month |
| ScheduleManage.MonthNav.GoToPrevMonth | src/features/hairSalon/admin/ScheduleManagePage.tsx:69-76 | applies `PrevMonth` |
| ScheduleManage.MonthNav.GoToNextMonth | src/features/hairSalon/admin/ScheduleManagePage.tsx:78-85 | applies `NextMonth` |
| ScheduleManage.MonthNav.GoToToday | src/features/hairSalon/admin/ScheduleManagePage.tsx:87-91 | back to the current year and month |
| ScheduleManage.CountStatus | src/features/hairSalon/admin/ScheduleManagePage.tsx:160-163 | the number of bookings with that status; `ScheduleManage.StatusCountsSum` states the four add up |
| ScheduleManage.StatusCountsSum | src/features/hairSalon/admin/ScheduleManagePage.tsx:160-163 | the four status counts add up to the number of bookings |
| ScheduleManage.ActionsFor | src/features/hairSalon/admin/ScheduleManagePage.tsx:236-251 | no actions without a selected booking |
| ScheduleManage.ActionsFollowLifecycle | src/features/hairSalon/admin/ScheduleManagePage.tsx:236-251 | the actions offered are exactly the allowed status moves; pending cannot complete; closed bookings get none |
| DateTimeline.Dates | src/features/hairSalon/components/DateTimelineView.tsx:26-34 | `daysToShow` dates, each a day after the previous |
| DateTimeline.DayShift | src/features/hairSalon/components/DateTimelineView.tsx:26-34 | adding n days' milliseconds moves the day by n |
| DateTimeline.BookingsForDate | src/features/hairSalon/components/DateTimelineView.tsx:37-40 | exactly the date's bookings that are not cancelled |
| DateTimeline.Duration | src/features/hairSalon/components/DateTimelineView.tsx:47-49 | end minus start minutes, NaN when a field is; its meaning is `DateTimeline.DurationOfClock` |
| DateTimeline.TotalMinutes | src/features/hairSalon/components/DateTimelineView.tsx:43-50 | the sum of the durations, NaN absorbing; `DateTimeline.TotalBookedMinutes` ties it to the loop and `DateTimeline.TotalMinutesOfClocks` states its meaning |
| DateTimeline.TotalBookedMinutes | src/features/hairSalon/components/DateTimelineView.tsx:43-53 | the loop sums the date's booking durations, NaN if any is malformed |
| DateTimeline.TotalCell | src/features/hairSalon/components/DateTimelineView.tsx:51-52 | the total is shown iff the day operates and the total is positive |
| DateTimeline.TotalMinutesOfClocks | src/features/hairSalon/components/DateTimelineView.tsx:45-50 | on forward well-formed bookings the total is a number, non-negative, and zero iff every booking is empty |
| DateTimeline.DurationOfClock | src/features/hairSalon/components/DateTimelineView.tsx:46-49 | a booking's duration is end minus start minutes, zero iff they are equal |
| DateTimeline.IsHourBooked | src/features/hairSalon/components/DateTimelineView.tsx:56-63 | some booking of the date has start hour <= hour < end hour; its meaning is `DateTimeline.IsHourBookedMeaning` |
| DateTimeline.IsHourBookedMeaning | src/features/hairSalon/components/DateTimelineView.tsx:56-63 | an hour is booked iff an uncancelled booking of the date covers it by whole hours |
| DateTimeline.CoversHourOfClock | src/features/hairSalon/components/DateTimelineView.tsx:59-61 | the hour is covered iff start hour <= hour < end hour |
| DateTimeline.HalfHourBookingCells | src/features/hairSalon/components/DateTimelineView.tsx:59-61 | a 14:30–15:30 booking marks hour 14 and not hour 15 |
| DateTimeline.IsOperatingHour | src/features/hairSalon/components/DateTimelineView.tsx:73-81 | on an operating day, the opening hour <= hour < closing hour |
| DateTimeline.IsPastCellMeaning | src/features/hairSalon/components/DateTimelineView.tsx:184 | earlier days are past, later ones are not, and today's hours are past before the current hour |
| DateTimeline.CellAt | src/features/hairSalon/components/DateTimelineView.tsx:186-195 | the cell class from operating day, operating hour, booked and past; its meaning is `DateTimeline.CellClassOf` |
| DateTimeline.CellClassOf | src/features/hairSalon/components/DateTimelineView.tsx:186-195 | exactly one class, by precedence non-operating, booked, past, available |
| DateTimeline.ClickCalls | src/features/hairSalon/components/DateTimelineView.tsx:201 | operating hour, not booked and not past; its meaning is `DateTimeline.ClickOnlyOnAvailable` |
| DateTimeline.ClickOnlyOnAvailable | src/features/hairSalon/components/DateTimelineView.tsx:201 | a click reaches the handler iff the cell is available |
| DateTimeline.DateWindow.constructor | src/features/hairSalon/components/DateTimelineView.tsx:19-23 | the window starts at the given date with the given width |
| DateTimeline.DateWindow.GoToPrevious | src/features/hairSalon/components/DateTimelineView.tsx:89-93 | the window moves back by its width in days, with no clamp |
| DateTimeline.DateWindow.GoToNext | src/features/hairSalon/components/DateTimelineView.tsx:95-99 | the window moves on by its width in days |
| DateTimeline.DateWindow.GoToToday | src/features/hairSalon/components/DateTimelineView.tsx:101-103 | the window starts now |
| MyBookings.Moment | src/features/hairSalon/hooks/useHairBookings.ts:16 | `new Date(date + 'T' + startTime)`, NaN as none; its meaning is `IsoDates.ParseDateTime` |
| MyBookings.SortNewestFirst | src/features/hairSalon/hooks/useHairBookings.ts:12-19 | the fetched list sorted by the comparator, same length; its meaning is `MyBookings.SortLatestFirstCorrect` |
| MyBookings.SortLatestFirstCorrect | src/features/hairSalon/hooks/useHairBookings.ts:12-19 | the sorted list is a permutation of the fetched one with no booking before a strictly later one |
| MyBookings.SortedByDateThenTime | src/features/hairSalon/hooks/useHairBookings.ts:12-19 | for well-formed bookings, the list is in descending (date, start time) order |
| MyBookings.IsUpcoming | src/features/hairSalon/hooks/useHairBookings.ts:40-43 | not cancelled, not completed, and starting now or later; its meaning is `MyBookings.UpcomingPastPartition` |
| MyBookings.IsPast | src/features/hairSalon/hooks/useHairBookings.ts:49-52 | completed, cancelled or starting before now; its meaning is `MyBookings.UpcomingPastPartition` |
| MyBookings.Upcoming | src/features/hairSalon/hooks/useHairBookings.ts:39-45 | exactly the bookings that are neither cancelled nor completed and start now or later |
| MyBookings.Past | src/features/hairSalon/hooks/useHairBookings.ts:47-53 | exactly the completed, cancelled or already started bookings |
| MyBookings.UpcomingPastPartition | src/features/hairSalon/hooks/useHairBookings.ts:39-53 | no booking is both; a parsable one is one of them; an open unparsable one is neither |
| MyBookings.UpcomingPastCount | src/features/hairSalon/hooks/useHairBookings.ts:39-53 | when every moment parses, the two lists hold each booking exactly once |
| MyBookings.CancelBooking | src/features/hairSalon/hooks/useHairBookings.ts:28-37 | cancels the booking through the store and answers true |
| MyBookings.CreateHook.constructor | src/features/hairSalon/hooks/useHairBookings.ts:67-68 | not loading, no error |
| MyBookings.CreateHook.CreateBooking | src/features/hairSalon/hooks/useHairBookings.ts:70-94 | login error and no store change without a user; else the store's create: on success the appended booking is the store's full record of the request, with end = start + the service's duration; on failure its message is the error |
| BookingCard.StatusLabel | src/features/hairSalon/components/BookingCard.tsx:12-20 | the four statuses get their Korean label and class |
| BookingCard.KnownStatusLabel | src/features/hairSalon/components/BookingCard.tsx:12-17 | each status's class is "status-" and its name |
| BookingCard.UnknownStatusLabel | src/features/hairSalon/components/BookingCard.tsx:20 | any other text is shown as it is, with no class |
| BookingCard.CanCancel | src/features/hairSalon/components/BookingCard.tsx:21-23 | not past and neither cancelled nor completed; its meaning is `BookingCard.CanCancelIffUpcoming` |
| BookingCard.CanCancelIffUpcoming | src/features/hairSalon/components/BookingCard.tsx:21-23 | for a parsable booking, cancellable iff upcoming; an unparsable one iff open |
| BookingCard.CancelButtonOnlyOnOpenBookings | src/features/hairSalon/components/BookingCard.tsx:77 | the button shows only on open, not past bookings with actions, and on every upcoming one |

## Left out

- Asynchrony: the `delay` pauses, `async`/`await` and `Promise.all`. Each operation is one atomic step.
- Logging (`logger.*`). It has no effect on the data.
- Id generation (`` `booking-${Date.now()}` `` and the like). The id is a parameter that must not be in use yet.
- The wall clock (`new Date()`). `now` is a parameter: a time value, or the `toISOString` text stored in `createdAt`/`updatedAt`.
- `toISOString`-based date texts (`toDateString` in src/core/utils/dateUtils.ts:22-24, the wizard's booking date, the schedule grid's `dateStr`). They are UTC and depend on the time zone, so they are parameters.
- `formatDate`, `formatDateTime`, `isSameDay`, `isToday` and other `toLocaleDateString` users. Locale formatting is not part of this model.
- Time zones and daylight saving time. A `Date` is modelled as local wall-clock milliseconds with every day 86 400 000 ms long.
- Floating point. The timeline's booked total is kept in minutes (`DateTimeline.TotalCell`) instead of the fractional `totalMinutes / 60` hours it prints, and the schedule grid's current-time line position and scroll offset (percentages) are left out.
- The JSX rendering, effects, modals, routing and the timeline's per-date fetch loop (BookingTimelineSelector.tsx:99-159). They are view code; what the fetch stores is the `slotsMap`/`bookingsMap` parameter.
- Relation population in `getBookingsByCustomer`/`getBookingsByShop`/`getBookingById` (shop, service and stylist objects) and the hooks' refetch. They copy data without changing any modelled field.
- The schedule page's dialog handlers and `window.confirm`. They are UI; the actions offered are modelled by `ScheduleManage.ActionsFor`.
- Stylist days off. The source never consults them when computing slots, and the model follows the source.
- The hooks' `'예약에 실패했습니다.'` fallback message. The store only throws `Error` values, so the message is always the thrown one.
- `MyBookings.CancelBooking` returning `false`. That branch runs only when the store throws, and its cancel never throws.
- `STATUS_LABELS` keys inherited from `Object.prototype` (such as `"constructor"`). Only the four status names and other plain texts are modelled.
- `MyBookings.SortLatestFirstCorrect`: the order among bookings whose date-time is NaN. JavaScript's `sort` with an inconsistent comparator has an engine-defined result; the model uses a stable insertion sort, and the lemma only promises that the list is a permutation and that no booking precedes a strictly later one.
- `BookingService.BookingStore.GetAvailableSlots`: requires every swept booking to have well-formed start and end times with end + interval below 6000 minutes, and, on a parsed weekday, what the day's slot loop needs to end (see `TimeSlotUtils.GenerateTimeSlots`). The source's `while (currentTime < endTime)` compares strings and need not end otherwise: with 99:00–99:59 at interval 60, "100:00" sorts before "99:59" and the loop runs forever.
- `TimeSlotUtils.GenerateTimeSlots`: requires only that its loop ends: a positive interval, unless a time reads as NaN or the opening is not before the closing. For a zero or negative interval on a non-empty day the source loop does not end.
- `TimeSlotUtils.GetAvailableTimeSlots`: requires the same of an open day's operating hours.
- `ScheduleManage.InMonthMeaning`: proved for years 1000 to 9998 only. Other years do not print as four digits, so string order is no longer date order.
- `IsoDates.DateTimeOrder`: proved for times before 24:00 only. `D T24:00` is accepted and is the same moment as the next day's `T00:00` (`IsoDates.MidnightTwice`), so on such pairs moment order and (date, time) text order disagree.
- `DateTimeline.TotalMinutesOfClocks`: proved for bookings whose times are well formed with the end not before the start. Other bookings give a negative or NaN total, which the model computes but does not characterise.
- `Text.NumberValue`: reads integer texts only. Fractions, exponents, radix prefixes such as "0x", "Infinity" and a trailing "." read as NaN here, though JavaScript's `Number` accepts them.
- `BookingService.DaySlotAvailable` and `TimelineSelector.ClickedSlotIsFree`: proved for days whose opening and closing times are well formed, which is what makes every slot a well-formed time. `BookingService.DaySlots` and `TimeSlotUtils.GetAvailableTimeSlots` still compute the slots of other opening hours.
- `IsoDates.ParseDateTime`: reads only `HH:MM` times. The seconds, fraction and offset forms of the ECMA-262 date-time string format (`HH:mm:ss`, `HH:mm:ss.sss`, `Z`, `±HH:mm`) give `None` here though JavaScript reads them. An open booking whose start time is, say, "10:00:00" (which the store accepts and whose slot `TimeSlotUtils.ParseClockThirdField` reads as 10:00) is therefore in neither the upcoming nor the past list of the model, while JavaScript classifies it.
- Durations and minute counts (`durationMinutes`, the minutes of `TimeSlotUtils.FormatDuration` and `TimeSlotUtils.AddMinutesToTime`) are natural numbers, where the source's type is `number`. The only place durations are entered, the service form's select of 30 to 180 minutes, gives whole positive minutes.
- JavaScript number limits. A `Date` time value is clipped to ±8.64e15 ms (TimeClip), past which it is an Invalid Date whose `getDay` is NaN; `DateUtils.AddDays` and the `Calendar` functions work on unbounded integers and never reach that state. `Number` of a digit text above 2^53 rounds to a nearby double, where `Text.NumberValue` is exact.
- UTF-16 code units. Strings are sequences of Unicode scalar values, while JavaScript compares and measures strings in UTF-16 code units, so `Text.StrLess` and the length test of `Text.PadStart2` differ from the source on characters outside the Basic Multilingual Plane. The times, dates and ids they are used on are ASCII.
