/** The month schedule grid of the salon admin
    (src/features/hairSalon/components/ScheduleGrid.tsx): the days of the
    month, the fixed 30-minute columns, the map from cell keys to the
    bookings that start at or span a cell, the cell lookup, the cell class
    and what a click does. The ISO date text of a day (`toDateString`) is
    passed in as `dateStr`. */
module ScheduleGrid {
  import opened Collections
  import opened Text
  import opened Types
  import opened Calendar
  import opened TimeSlotUtils
  import opened DateUtils
  import TimelineSelector

  // ---- the rows and the columns ----

  /** `daysInMonth`: `new Date(year, month, d)` for `d` from 1 to the day of
      the month of `new Date(year, month + 1, 0)`. */
  method MonthDays(year: int, month: int) returns (days: seq<int>)
    ensures days == Midnights(FirstDay(year, month), MonthLength(year, month))
  {
    var lastDay := NewLocalDate(year, month + 1, 0);
    ghost var first, len := FirstDay(year, month), MonthLength(year, month);
    MonthEnds(year, month, NewLocalDate(year, month, 1), lastDay, first, len);
    LastDayGetDate(year, month, lastDay, first, len);
    days := [];
    var d := 1;
    while d <= GetDate(lastDay)
      invariant 1 <= d <= len + 1
      invariant days == Midnights(first, d - 1)
    {
      var date := NewLocalDate(year, month, d);
      DayOfMonth(year, month, d, date, first);
      MidnightsSnoc(first, d - 1, date);
      days := days + [date];
      d := d + 1;
    }
  }

  /** Row `k` of the month is its day `k + 1`, in the month `new Date` carries
      `(year, month)` into. */
  lemma MonthDaysDate(year: int, month: int, k: nat)
    requires k < MonthLength(year, month)
    ensures Midnights(FirstDay(year, month), MonthLength(year, month))[k] == NewLocalDate(year, month, k + 1)
    ensures LocalDate(Midnights(FirstDay(year, month), MonthLength(year, month))[k])
         == Civil(TargetMonth(year, month).year, TargetMonth(year, month).month, k + 1)
  {
    DayOfMonth(year, month, k + 1, NewLocalDate(year, month, k + 1), FirstDay(year, month));
    MonthDayDate(year, month, k + 1);
  }

  lemma GridBounds()
    ensures IsClock("06:00") && ClockMinutes("06:00") == 360
    ensures IsClock("22:00") && ClockMinutes("22:00") == 1320
  {
    assert DigitValue('0') == 0 && DigitValue('6') == 6 && DigitValue('2') == 2;
  }

  /** `timeSlots`: `generateTimeSlots('06:00', '22:00', 30)`. */
  method GridTimes() returns (times: seq<string>)
    ensures times == SlotGrid(360, 1320, 30)
  {
    GridBounds();
    TimeSlotGridOfClocks("06:00", "22:00", 30);
    times := GenerateTimeSlots("06:00", "22:00", 30);
  }

  /** The columns are the 32 half hours from 06:00 to 21:30, in order. */
  lemma GridTimesShape()
    ensures |SlotGrid(360, 1320, 30)| == 32
    ensures forall k :: 0 <= k < 32 ==>
      IsClock(SlotGrid(360, 1320, 30)[k]) && ClockMinutes(SlotGrid(360, 1320, 30)[k]) == 360 + 30 * k
  {
    var n := |SlotGrid(360, 1320, 30)|;
    SlotMinutesLength(360, 1320, 30);
    if n > 32 {
      SlotMinutesAt(360, 1320, 30, 32);
    }
    forall k | 0 <= k < 32
      ensures IsClock(SlotGrid(360, 1320, 30)[k]) && ClockMinutes(SlotGrid(360, 1320, 30)[k]) == 360 + 30 * k
    {
      SlotGridEntry(360, 1320, 30, k);
    }
  }

  // ---- the booking map ----

  /** `booking.stylistId || 'any'`. */
  function StylistPart(stylistId: Option<string>): (r: string)
    ensures r == "any" <==> !Truthy(stylistId) || stylistId.value == "any"
  {
    if Truthy(stylistId) then stylistId.value else "any"
  }

  /** The key `${date}-${time}-${stylistId || 'any'}`. */
  function BookingKey(date: string, time: string, stylistId: Option<string>): string {
    date + "-" + time + "-" + StylistPart(stylistId)
  }

  /** With dates and times of fixed width (YYYY-MM-DD and HH:MM), a key
      determines its date, its time and its stylist part. */
  lemma BookingKeyInjective(d1: string, t1: string, s1: Option<string>, d2: string, t2: string, s2: Option<string>)
    requires |d1| == |d2| == 10 && |t1| == |t2| == 5
    ensures BookingKey(d1, t1, s1) == BookingKey(d2, t2, s2) <==>
            d1 == d2 && t1 == t2 && StylistPart(s1) == StylistPart(s2)
  {
    var k1, k2 := BookingKey(d1, t1, s1), BookingKey(d2, t2, s2);
    if k1 == k2 {
      assert k1[..10] == d1 && k2[..10] == d2;
      assert k1[11..16] == t1 && k2[11..16] == t2;
      assert k1[17..] == StylistPart(s1) && k2[17..] == StylistPart(s2);
    }
  }

  /** A map entry: the booking, and whether the cell is one it spans rather
      than the one it starts in (`_isSpan`). */
  datatype Cell = Cell(booking: Booking, isSpan: bool)

  /** The time text of the `i`-th half hour after the start, written as
      `addMinutesToTime` writes it (hours floored, minutes by `%`, each
      `padStart(2, '0')`); NaN throughout when the start does not parse. */
  function SpanTime(start: Option<int>, i: int): string {
    if start.None? then "NaN:NaN" else FormatClock(start.value + i * 30)
  }

  /** Span `i` of a parsed start is the clock text of `start + 30 * i`
      minutes, as `addMinutesToTime` writes it. */
  lemma SpanTimeAt(start: int, i: int, t: int)
    requires t == start + 30 * i
    ensures SpanTime(Some(start), i) == FormatClock(t)
  {
    assert start + i * 30 == t;
  }

  /** `Math.ceil(durationMinutes / 30)`. */
  function TotalSlots(durationMinutes: nat): nat {
    (durationMinutes + 29) / 30
  }

  /** The slots cover the duration and no slot more: `ceil`. */
  lemma TotalSlotsBounds(durationMinutes: nat)
    ensures 30 * TotalSlots(durationMinutes) >= durationMinutes
    ensures TotalSlots(durationMinutes) > 0 ==> 30 * (TotalSlots(durationMinutes) - 1) < durationMinutes
    ensures TotalSlots(durationMinutes) == 0 <==> durationMinutes == 0
  {
  }

  /** The span entries of a booking: none without a service, else one for
      `i` from 1 below `ceil(duration / 30)`. */
  function SpanEntries(b: Booking): (r: seq<(string, Cell)>)
    ensures b.service.None? ==> r == []
    ensures b.service.Some? ==> r == SpanRun(b, ParseClock(b.startTime), SpanCount(b.service.value.durationMinutes))
  {
    if b.service.None? then []
    else SpanRun(b, ParseClock(b.startTime), SpanCount(b.service.value.durationMinutes))
  }

  /** How many span cells follow the start cell: `ceil(duration / 30) - 1`, or none. */
  function SpanCount(durationMinutes: nat): nat {
    if TotalSlots(durationMinutes) > 0 then TotalSlots(durationMinutes) - 1 else 0
  }

  /** The puts for the half hours 1 to `n` after the start. */
  function SpanRun(b: Booking, start: Option<int>, n: nat): (r: seq<(string, Cell)>)
    ensures |r| == n
  {
    Run(i => SpanEntry(b, start, i), n)
  }

  /** `[f(1), ..., f(n)]`, built by the loop `for (let i = 1; i <= n; i++)`. */
  function Run<T>(f: int -> T, n: nat): (r: seq<T>)
    ensures |r| == n
    decreases n
  {
    if n == 0 then [] else Run(f, n - 1) + [f(n)]
  }

  /** Entry `k` of a run is `f(k + 1)`. */
  lemma {:induction false} RunAt<T>(f: int -> T, n: nat, k: nat)
    requires k < n
    ensures Run(f, n)[k] == f(k + 1)
    decreases n
  {
    if k < n - 1 {
      RunAt(f, n - 1, k);
    }
  }

  /** Entry `k` of the run is the put for half hour `k + 1`. */
  lemma SpanRunAt(b: Booking, start: Option<int>, n: nat, k: nat)
    requires k < n
    ensures SpanRun(b, start, n)[k] == SpanEntry(b, start, k + 1)
  {
    RunAt(i => SpanEntry(b, start, i), n, k);
  }

  /** The put for the `i`-th half hour after the start. */
  function SpanEntry(b: Booking, start: Option<int>, i: int): (string, Cell) {
    (BookingKey(b.bookingDate, SpanTime(start, i), b.stylistId), Cell(b, true))
  }

  /** The puts one booking makes, in order: its start key, then its spans. */
  function Entries(b: Booking): (r: seq<(string, Cell)>)
    ensures |r| >= 1 && r[0] == (BookingKey(b.bookingDate, b.startTime, b.stylistId), Cell(b, false))
    ensures r[1..] == SpanEntries(b)
  {
    [(BookingKey(b.bookingDate, b.startTime, b.stylistId), Cell(b, false))] + SpanEntries(b)
  }

  function EntryLists(bookings: seq<Booking>): (r: seq<seq<(string, Cell)>>)
    ensures |r| == |bookings| && forall j :: 0 <= j < |r| ==> r[j] == Entries(bookings[j])
  {
    MapSeq(bookings, Entries)
  }

  /** Every put of the `forEach`, in order. */
  function AllEntries(bookings: seq<Booking>): seq<(string, Cell)> {
    Flatten(EntryLists(bookings))
  }

  /** A `Map` after a series of `set`s: a later put of a key replaces an
      earlier one. */
  function MapOf(puts: seq<(string, Cell)>): map<string, Cell>
    decreases |puts|
  {
    if puts == [] then map[]
    else MapOf(puts[..|puts| - 1])[puts[|puts| - 1].0 := puts[|puts| - 1].1]
  }

  lemma MapOfSnoc(puts: seq<(string, Cell)>, put: (string, Cell))
    ensures MapOf(puts + [put]) == MapOf(puts)[put.0 := put.1]
  {
    assert (puts + [put])[..|puts|] == puts;
  }

  /** A key is in the map exactly when some put had it, and it holds the value
      of the last such put. */
  lemma {:induction false} MapOfLookup(puts: seq<(string, Cell)>, key: string)
    ensures key in MapOf(puts) <==> exists i :: 0 <= i < |puts| && puts[i].0 == key
    ensures key in MapOf(puts) ==>
      exists i :: 0 <= i < |puts| && puts[i].0 == key && MapOf(puts)[key] == puts[i].1 &&
                  forall j :: i < j < |puts| ==> puts[j].0 != key
    decreases |puts|
  {
    if puts != [] {
      var front := puts[..|puts| - 1];
      MapOfLookup(front, key);
      assert forall i :: 0 <= i < |front| ==> front[i] == puts[i];
      if puts[|puts| - 1].0 != key && key in MapOf(puts) {
        var i :| 0 <= i < |front| && front[i].0 == key && MapOf(front)[key] == front[i].1 &&
                 forall j :: i < j < |front| ==> front[j].0 != key;
        assert puts[i].0 == key && MapOf(puts)[key] == puts[i].1;
      }
    }
  }

  /** The `bookingMap` the component computes. */
  function BookingMap(bookings: seq<Booking>): map<string, Cell> {
    MapOf(AllEntries(bookings))
  }

  /** One more put of a booking's entries. */
  lemma PutStep(done: seq<(string, Cell)>, entries: seq<(string, Cell)>, i: nat)
    requires i < |entries|
    ensures MapOf(done + entries[..i + 1]) == MapOf(done + entries[..i])[entries[i].0 := entries[i].1]
  {
    assert done + entries[..i + 1] == (done + entries[..i]) + [entries[i]];
    MapOfSnoc(done + entries[..i], entries[i]);
  }

  /** A booking makes one put, plus `ceil(duration / 30) - 1` with a service. */
  lemma EntriesLength(b: Booking)
    ensures |Entries(b)| == if b.service.Some? && TotalSlots(b.service.value.durationMinutes) > 0
                            then TotalSlots(b.service.value.durationMinutes) else 1
  {
  }

  /** `bookingMap`: for each booking, put its start key, then, when its
      service is known, its span keys. */
  method BuildBookingMap(bookings: seq<Booking>) returns (m: map<string, Cell>)
    ensures m == BookingMap(bookings)
  {
    m := map[];
    var j := 0;
    while j < |bookings|
      invariant 0 <= j <= |bookings|
      invariant m == MapOf(Flatten(EntryLists(bookings)[..j]))
    {
      FlattenPrefix(EntryLists(bookings), j);
      m := PutBooking(m, bookings[j], Flatten(EntryLists(bookings)[..j]));
      j := j + 1;
    }
    assert EntryLists(bookings)[..j] == EntryLists(bookings);
  }

  /** The body of the `forEach`: the puts of one booking. */
  method PutBooking(m0: map<string, Cell>, booking: Booking, ghost done: seq<(string, Cell)>)
    returns (m: map<string, Cell>)
    requires m0 == MapOf(done)
    ensures m == MapOf(done + Entries(booking))
  {
    ghost var head := (BookingKey(booking.bookingDate, booking.startTime, booking.stylistId), Cell(booking, false));
    MapOfSnoc(done, head);
    m := m0[BookingKey(booking.bookingDate, booking.startTime, booking.stylistId) := Cell(booking, false)];
    if booking.service.Some? {
      var parts := Split(booking.startTime, ':');
      var startHour := NumberValue(parts[0]);
      var startMin := if |parts| > 1 then NumberValue(parts[1]) else None;
      var totalSlots := (booking.service.value.durationMinutes + 29) / 30;
      ghost var start := ParseClock(booking.startTime);
      StartOfFields(booking.startTime, parts, startHour, startMin);
      assert totalSlots == TotalSlots(booking.service.value.durationMinutes);
      m := PutSpans(m, booking, startHour, startMin, totalSlots, done, head, start);
      assert Entries(booking) == [head] + SpanRun(booking, start, SpanCount(booking.service.value.durationMinutes));
    } else {
      assert Entries(booking) == [head];
    }
  }

  /** `startHour * 60 + startMin`, NaN when either field is. */
  function StartOf(startHour: Option<int>, startMin: Option<int>): Option<int> {
    if startHour.Some? && startMin.Some? then Some(startHour.value * 60 + startMin.value) else None
  }

  /** The destructured `[startHour, startMin]` give the parsed start. */
  lemma StartOfFields(time: string, parts: seq<string>, startHour: Option<int>, startMin: Option<int>)
    requires parts == Split(time, ':') && |parts| > 0
    requires startHour == NumberValue(parts[0])
    requires startMin == if |parts| > 1 then NumberValue(parts[1]) else None
    ensures ParseClock(time) == StartOf(startHour, startMin)
  {
  }

  /** The `for` loop over the half hours after a booking's start: one span
      put for each of `i = 1` to `totalSlots - 1`. */
  method PutSpans(m0: map<string, Cell>, booking: Booking, startHour: Option<int>, startMin: Option<int>,
                  totalSlots: nat, ghost done: seq<(string, Cell)>, ghost head: (string, Cell), ghost start: Option<int>)
    returns (m: map<string, Cell>)
    requires start == StartOf(startHour, startMin)
    requires m0 == MapOf(done + [head])
    ensures m == MapOf(done + ([head] + SpanRun(booking, start, if totalSlots > 0 then totalSlots - 1 else 0)))
  {
    m := m0;
    assert [head] + SpanRun(booking, start, 0) == [head];
    var i := 1;
    while i < totalSlots
      invariant 1 <= i && (totalSlots > 0 ==> i <= totalSlots) && (totalSlots == 0 ==> i == 1)
      invariant m == MapOf(done + ([head] + SpanRun(booking, start, i - 1)))
    {
      var slotTime := SlotTime(startHour, startMin, i, start);
      SnocSpan(m, done, head, booking, start, i, slotTime);
      m := m[BookingKey(booking.bookingDate, slotTime, booking.stylistId) := Cell(booking, true)];
      i := i + 1;
    }
  }

  /** One more span put. */
  lemma SnocSpan(m: map<string, Cell>, done: seq<(string, Cell)>, head: (string, Cell), b: Booking,
                 start: Option<int>, i: nat, slotTime: string)
    requires i >= 1 && m == MapOf(done + ([head] + SpanRun(b, start, i - 1)))
    requires slotTime == SpanTime(start, i)
    ensures m[BookingKey(b.bookingDate, slotTime, b.stylistId) := Cell(b, true)]
         == MapOf(done + ([head] + SpanRun(b, start, i)))
  {
    assert SpanRun(b, start, i) == SpanRun(b, start, i - 1) + [SpanEntry(b, start, i)] by {
      RunSnoc(i => SpanEntry(b, start, i), i);
    }
    PutAfterRun(done, head, SpanRun(b, start, i - 1), SpanEntry(b, start, i));
  }

  lemma RunSnoc<T>(f: int -> T, n: nat)
    requires n >= 1
    ensures Run(f, n) == Run(f, n - 1) + [f(n)]
  {
  }

  /** A put after the start put and a run of span puts. */
  lemma PutAfterRun(done: seq<(string, Cell)>, head: (string, Cell), run: seq<(string, Cell)>, put: (string, Cell))
    ensures MapOf(done + ([head] + (run + [put]))) == MapOf(done + ([head] + run))[put.0 := put.1]
  {
    var before := done + ([head] + run);
    assert done + ([head] + (run + [put])) == before + [put];
    MapOfSnoc(before, put);
  }

  /** The time text of span `i`, from the parsed start hour and minute. */
  method SlotTime(startHour: Option<int>, startMin: Option<int>, i: int, ghost start: Option<int>)
    returns (slotTime: string)
    requires start == StartOf(startHour, startMin)
    ensures slotTime == SpanTime(start, i)
  {
    if startHour.None? || startMin.None? {
      slotTime := "NaN:NaN";
    } else {
      var slotMinutes := (startHour.value * 60 + startMin.value) + i * 30;
      var slotHour := slotMinutes / 60;
      var slotMin := JsRem(slotMinutes, 60);
      slotTime := PadStart2(IntToString(slotHour)) + ":" + PadStart2(IntToString(slotMin));
    }
  }

  /** Every value in the map is one of the bookings, stored under its start
      key or under one of its span keys. */
  lemma BookingMapSound(bookings: seq<Booking>, key: string)
    requires key in BookingMap(bookings)
    ensures exists j :: 0 <= j < |bookings| && BookingMap(bookings)[key].booking == bookings[j] &&
                        (key, BookingMap(bookings)[key]) in Entries(bookings[j])
  {
    var puts := AllEntries(bookings);
    MapOfLookup(puts, key);
    var i :| 0 <= i < |puts| && puts[i].0 == key && BookingMap(bookings)[key] == puts[i].1;
    var put := puts[i];
    FlattenMembers(EntryLists(bookings), put);
    var j :| 0 <= j < |EntryLists(bookings)| && put in EntryLists(bookings)[j];
    EntriesOwnBooking(bookings[j], put);
  }

  /** Every put a booking makes stores that booking. */
  lemma EntriesOwnBooking(b: Booking, put: (string, Cell))
    requires put in Entries(b)
    ensures put.1.booking == b
  {
    var entries := Entries(b);
    var k :| 0 <= k < |entries| && entries[k] == put;
    if k > 0 {
      assert entries[k] == SpanEntries(b)[k - 1];
      SpanRunAt(b, ParseClock(b.startTime), SpanCount(b.service.value.durationMinutes), k - 1);
    }
  }

  /** Every put's key reaches the map. */
  lemma BookingMapComplete(bookings: seq<Booking>, j: nat, put: (string, Cell))
    requires j < |bookings| && put in Entries(bookings[j])
    ensures put.0 in BookingMap(bookings)
  {
    FlattenMembers(EntryLists(bookings), put);
    MapOfLookup(AllEntries(bookings), put.0);
  }

  /** The map of two runs of bookings is the map of the first overridden by
      the map of the second: a key put by a later booking holds the later
      booking's cell, whatever the earlier ones put under it. */
  lemma LaterBookingOverwrites(earlier: seq<Booking>, later: seq<Booking>)
    ensures BookingMap(earlier + later) == BookingMap(earlier) + BookingMap(later)
  {
    EntryListsConcat(earlier, later);
    FlattenConcat(EntryLists(earlier), EntryLists(later));
    MapOfConcat(AllEntries(earlier), AllEntries(later));
  }

  lemma EntryListsConcat(earlier: seq<Booking>, later: seq<Booking>)
    ensures EntryLists(earlier + later) == EntryLists(earlier) + EntryLists(later)
  {
    MapSeqConcat(earlier, later, Entries);
  }

  /** The puts of two runs: the second run's keys win. */
  lemma {:induction false} MapOfConcat(puts: seq<(string, Cell)>, more: seq<(string, Cell)>)
    ensures MapOf(puts + more) == MapOf(puts) + MapOf(more)
    decreases |more|
  {
    if more == [] {
      assert puts + more == puts;
    } else {
      var init, last := more[..|more| - 1], more[|more| - 1];
      assert puts + more == (puts + init) + [last];
      assert more == init + [last];
      MapOfSnoc(puts + init, last);
      MapOfSnoc(init, last);
      MapOfConcat(puts, init);
    }
  }

  /** With a known service and a start that parses to `start` minutes, span
      cell `k` is the one for the half hour `k + 1` after the start (whose
      text `SpanTimeAt` gives), it begins before the service ends, and with
      the start cell the spans reach its end. */
  lemma SpansCoverService(b: Booking, start: int, k: nat)
    requires b.service.Some? && ParseClock(b.startTime) == Some(start)
    requires k < |SpanEntries(b)|
    ensures SpanEntries(b)[k] == SpanEntry(b, Some(start), k + 1)
    ensures 30 * (k + 1) < b.service.value.durationMinutes
    ensures 30 * (|SpanEntries(b)| + 1) >= b.service.value.durationMinutes
  {
    var n := SpanCount(b.service.value.durationMinutes);
    var spans := SpanEntries(b);
    assert spans == SpanRun(b, Some(start), n);
    SpanCountBounds(b.service.value.durationMinutes, k);
    SpanRunAt(b, Some(start), n, k);
  }

  /** Span `k` begins before the service ends, and the spans reach its end. */
  lemma SpanCountBounds(duration: nat, k: nat)
    requires k < SpanCount(duration)
    ensures 30 * (k + 1) < duration
    ensures 30 * (SpanCount(duration) + 1) >= duration
  {
    TotalSlotsBounds(duration);
  }

  // ---- a cell ----

  /** `bookingMap.get(key) || bookingMap.get(anyKey) || null`: the stylist's
      own entry, else the unassigned one. */
  function LookupCell(m: map<string, Cell>, dateStr: string, time: string, stylistId: string): (r: Option<Cell>)
    ensures dateStr + "-" + time + "-" + stylistId in m ==> r == Some(m[dateStr + "-" + time + "-" + stylistId])
    ensures dateStr + "-" + time + "-" + stylistId !in m ==>
      r == if dateStr + "-" + time + "-any" in m then Some(m[dateStr + "-" + time + "-any"]) else None
  {
    var key := dateStr + "-" + time + "-" + stylistId;
    var anyKey := dateStr + "-" + time + "-any";
    if key in m then Some(m[key]) else if anyKey in m then Some(m[anyKey]) else None
  }

  /** A looked-up cell shows a booking that was put under the date, the
      time and either the stylist or 'any'. */
  lemma LookupCellSound(bookings: seq<Booking>, dateStr: string, time: string, stylistId: string)
    requires LookupCell(BookingMap(bookings), dateStr, time, stylistId).Some?
    ensures var c := LookupCell(BookingMap(bookings), dateStr, time, stylistId).value;
      exists j :: 0 <= j < |bookings| && c.booking == bookings[j] &&
        ((dateStr + "-" + time + "-" + stylistId, c) in Entries(bookings[j]) ||
         (dateStr + "-" + time + "-any", c) in Entries(bookings[j]))
  {
    var key := dateStr + "-" + time + "-" + stylistId;
    if key in BookingMap(bookings) {
      BookingMapSound(bookings, key);
    } else {
      BookingMapSound(bookings, dateStr + "-" + time + "-any");
    }
  }

  /** `${now.getHours()}:${now.getMinutes()}`, each `padStart(2, '0')`. */
  function NowLabel(now: int): string {
    PadStart2(IntToString(GetHours(now))) + ":" + PadStart2(IntToString(GetMinutes(now)))
  }

  /** `isPast` of a cell: an earlier date text, or the same one and a time
      before the current hour and minute. */
  predicate IsPastCell(dateStr: string, time: string, currentDateStr: string, now: int) {
    StrLess(dateStr, currentDateStr) || (dateStr == currentDateStr && StrLess(time, NowLabel(now)))
  }

  /** On today's row, a well-formed time is past exactly when it is before the
      current minute of the day. */
  lemma IsPastCellToday(dateStr: string, time: string, now: int)
    requires IsClock(time)
    ensures IsPastCell(dateStr, time, dateStr, now) <==> ClockMinutes(time) < GetHours(now) * 60 + GetMinutes(now)
  {
    NowLabelClock(now);
    ClockOrder(time, NowLabel(now));
    StrLessTrichotomy(dateStr, dateStr);
  }

  /** The current hour and minute, padded, are a well-formed time of that
      minute of the day. */
  lemma NowLabelClock(now: int)
    ensures IsClock(NowLabel(now)) && ClockMinutes(NowLabel(now)) == GetHours(now) * 60 + GetMinutes(now)
  {
    PaddedClock(GetHours(now), GetMinutes(now), NowLabel(now));
  }

  lemma PaddedClock(h: int, m: int, s: string)
    requires 0 <= h < 24 && 0 <= m < 60
    requires s == PadStart2(IntToString(h)) + ":" + PadStart2(IntToString(m))
    ensures IsClock(s) && ClockMinutes(s) == h * 60 + m
  {
    var total := h * 60 + m;
    assert total / 60 == h && total % 60 == m;
    assert s == FormatClock(total);
    FormatClockIsClock(total);
  }

  /** The class list of a cell, in the precedence the component uses:
      outside working hours, then booked (start or span, with the status),
      then past, then available. */
  function CellClasses(isWorking: bool, cell: Option<Cell>, isPast: bool): (r: seq<string>)
    ensures |r| >= 2 && r[0] == "schedule-cell"
    ensures r[1] == "non-working" <==> !isWorking
    ensures r[1] == "booked" <==> isWorking && cell.Some?
    ensures r[1] == "past" <==> isWorking && cell.None? && isPast
    ensures r[1] == "available" <==> isWorking && cell.None? && !isPast
    ensures r[1] == "booked" ==>
      |r| == 4 && r[2] == (if cell.value.isSpan then "booking-span" else "booking-start") &&
      r[3] == StatusName(cell.value.booking.status)
  {
    if !isWorking then ["schedule-cell", "non-working"]
    else if cell.Some? then
      ["schedule-cell", "booked", if cell.value.isSpan then "booking-span" else "booking-start",
       StatusName(cell.value.booking.status)]
    else if isPast then ["schedule-cell", "past"]
    else ["schedule-cell", "available"]
  }

  /** `getCellClass`: the class list joined with spaces; working hours as in
      `isWorkingHour`, the same test as the timeline's `isOperatingTime`. */
  function GetCellClass(operatingHours: seq<OperatingHours>, date: int, dateStr: string, time: string,
                        currentDateStr: string, now: int, cell: Option<Cell>): string {
    Join(CellClasses(TimelineSelector.IsOperatingTime(operatingHours, date, time), cell,
                     IsPastCell(dateStr, time, currentDateStr, now)), " ")
  }

  /** What a click on a cell does. */
  datatype CellAction = OpenBooking(booking: Booking) | OpenSlot(date: string, time: string, stylistId: string) | Nothing

  /** `handleCellClick`: a start cell opens its booking, an empty working cell
      opens a new slot, anything else (a span, an empty cell outside working
      hours) does nothing. */
  function HandleCellClick(operatingHours: seq<OperatingHours>, date: int, dateStr: string, time: string,
                           stylistId: string, cell: Option<Cell>): (r: CellAction)
    ensures r.OpenBooking? <==> cell.Some? && !cell.value.isSpan
    ensures r.OpenBooking? ==> r.booking == cell.value.booking
    ensures r.OpenSlot? <==> cell.None? && TimelineSelector.IsOperatingTime(operatingHours, date, time)
    ensures r.OpenSlot? ==> r == OpenSlot(dateStr, time, stylistId)
    ensures cell.Some? && cell.value.isSpan ==> r == Nothing
  {
    if cell.Some? && !cell.value.isSpan then OpenBooking(cell.value.booking)
    else if cell.None? && TimelineSelector.IsOperatingTime(operatingHours, date, time) then OpenSlot(dateStr, time, stylistId)
    else Nothing
  }
}
