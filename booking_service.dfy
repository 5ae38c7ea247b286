/** The in-memory booking store of
    src/features/hairSalon/services/hairBookingService.ts: the filtered
    queries, the free-slot computation for a shop's day, booking creation and
    the three status overwrites. Fresh ids and the current ISO time string are
    parameters; the shop tables are the `ShopDirectory` passed in. */
module BookingService {
  import opened Collections
  import opened Text
  import opened Types
  import opened Calendar
  import opened TimeSlotUtils
  import ShopService

  /** `CreateHairBookingData`. */
  datatype NewBooking = NewBooking(
    shopId: string,
    serviceId: string,
    stylistId: Option<string>,
    bookingDate: string,
    startTime: string,
    notes: Option<string>)

  const ServiceNotFound: string := "서비스를 찾을 수 없습니다."

  // ---- the weekday of a booking date ----

  /** `new Date(year, month - 1, day).getDay()` after `date.split('-').map(Number)`:
      the local weekday of the date's own fields; `None` when a field is NaN. */
  function DateWeekday(date: string): Option<int> {
    var parts := Split(date, '-');
    var year := NumberValue(parts[0]);
    var month := if |parts| > 1 then NumberValue(parts[1]) else None;
    var day := if |parts| > 2 then NumberValue(parts[2]) else None;
    if year.None? || month.None? || day.None? then None
    else Some(GetDay(NewLocalDate(year.value, month.value - 1, day.value)))
  }

  /** Decimal digit fields contain no '-'. */
  lemma DigitsHaveNoDash(s: string)
    requires AllDigits(s)
    ensures forall j :: 0 <= j < |s| ==> s[j] != '-'
  {
  }

  /** Three digit fields joined by '-' split back into those fields. */
  lemma SplitDate(date: string, y: string, m: string, d: string)
    requires date == y + "-" + m + "-" + d
    requires AllDigits(y) && AllDigits(m) && AllDigits(d)
    ensures Split(date, '-') == [y, m, d]
  {
    DigitsHaveNoDash(y);
    DigitsHaveNoDash(m);
    DigitsHaveNoDash(d);
    var rest := m + "-" + d;
    assert date == y + ['-'] + rest;
    SplitPrefix(date, y, rest, '-');
    SplitPrefix(rest, m, d, '-');
    SplitNone(d, '-');
  }

  /** The weekday the constructor gives for a four-digit year and a month of 1..12. */
  lemma ConstructorWeekday(year: int, month: int, day: int, t: int)
    requires year >= 100 && 1 <= month <= 12
    requires t == NewLocalDate(year, month - 1, day)
    ensures GetDay(t) == Weekday(DayNumber(year, month, day))
  {
    assert MakeDay(year, month - 1, day) == DayNumber(year, month, day);
    MidnightFacts(t, DayNumber(year, month, day));
  }

  /** The weekday of a date whose three fields are numbers. */
  lemma DateWeekdayOfNumbers(date: string, year: int, month: int, day: int)
    requires |Split(date, '-')| == 3
    requires NumberValue(Split(date, '-')[0]) == Some(year)
    requires NumberValue(Split(date, '-')[1]) == Some(month)
    requires NumberValue(Split(date, '-')[2]) == Some(day)
    ensures DateWeekday(date) == Some(GetDay(NewLocalDate(year, month - 1, day)))
  {
  }

  /** A date whose three '-' fields read as a year of at least 100, a month
      of 1..12 and a day gets the weekday of that calendar day: it is counted
      from the date's own fields, without any time zone. */
  lemma DateWeekdayOfFields(date: string, year: int, month: int, day: int)
    requires |Split(date, '-')| == 3
    requires NumberValue(Split(date, '-')[0]) == Some(year)
    requires NumberValue(Split(date, '-')[1]) == Some(month)
    requires NumberValue(Split(date, '-')[2]) == Some(day)
    requires year >= 100 && 1 <= month <= 12
    ensures DateWeekday(date) == Some(Weekday(DayNumber(year, month, day)))
  {
    DateWeekdayOfNumbers(date, year, month, day);
    ConstructorWeekday(year, month, day, NewLocalDate(year, month - 1, day));
  }

  // ---- the booked-slot sweep ----

  /** What the `while (currentTime < b.endTime)` sweep needs to end: once it
      starts, both times are well-formed and each step lands on a well-formed
      time, which needs a positive interval. */
  predicate StepsEnd(b: Booking, interval: int) {
    StrLess(b.startTime, b.endTime) ==>
      IsClock(b.startTime) && IsClock(b.endTime) && interval > 0 &&
      ClockMinutes(b.endTime) + interval <= 6000
  }

  /** The times a booking occupies: from its start, every `interval` minutes,
      while before its end. */
  function BookedTimes(b: Booking, interval: int): seq<string>
    requires StepsEnd(b, interval)
  {
    if StrLess(b.startTime, b.endTime)
    then SlotGrid(ClockMinutes(b.startTime), ClockMinutes(b.endTime), interval)
    else []
  }

  /** Each booking's occupied times, in the order of the bookings. */
  function Sweeps(bookings: seq<Booking>, interval: int): (r: seq<seq<string>>)
    requires forall j :: 0 <= j < |bookings| ==> StepsEnd(bookings[j], interval)
    ensures |r| == |bookings|
  {
    seq(|bookings|, j requires 0 <= j < |bookings| => BookedTimes(bookings[j], interval))
  }

  /** `bookedSlots` after the sweep over `bookings`. */
  function BookedSlots(bookings: seq<Booking>, interval: int): seq<string>
    requires forall j :: 0 <= j < |bookings| ==> StepsEnd(bookings[j], interval)
  {
    Flatten(Sweeps(bookings, interval))
  }

  /** The grid from `cur` starts with `cur` itself. */
  lemma SlotGridCons(cur: nat, end: nat, interval: int)
    requires interval > 0 && cur < end
    ensures SlotGrid(cur, end, interval) == [FormatClock(cur)] + SlotGrid(cur + interval, end, interval)
  {
    var rest := SlotMinutes(cur + interval, end, interval);
    assert SlotMinutes(cur, end, interval) == [cur] + rest;
    FormattedCons(cur, rest);
  }

  /** `cur + i * interval`: the `i`-th step from `cur`. */
  function Step(cur: int, i: nat, interval: int): int {
    cur + i * interval
  }

  /** A step that lands before `end` is on the grid. */
  lemma {:induction false} SlotMinutesIndex(cur: nat, end: nat, interval: int, i: nat)
    requires interval > 0 && Step(cur, i, interval) < end
    ensures i < |SlotMinutes(cur, end, interval)|
    decreases i
  {
    if i > 0 {
      MulStep(i, interval);
      assert Step(cur + interval, i - 1, interval) == Step(cur, i, interval);
      SlotMinutesIndex(cur + interval, end, interval, i - 1);
    }
  }

  /** A well-formed time is on the grid exactly when it lies before `end` a
      whole number of intervals after `cur`. */
  lemma SlotGridMembers(cur: nat, end: nat, interval: int, t: string)
    requires interval > 0 && end <= 6000 && IsClock(t)
    ensures t in SlotGrid(cur, end, interval) <==>
            ClockMinutes(t) < end && exists i: nat :: Step(cur, i, interval) == ClockMinutes(t)
  {
    var g := SlotGrid(cur, end, interval);
    if t in g {
      var i :| 0 <= i < |g| && g[i] == t;
      SlotGridEntry(cur, end, interval, i);
      assert Step(cur, i, interval) == ClockMinutes(t);
    }
    if ClockMinutes(t) < end && exists i: nat :: Step(cur, i, interval) == ClockMinutes(t) {
      var i: nat :| Step(cur, i, interval) == ClockMinutes(t);
      SlotMinutesIndex(cur, end, interval, i);
      SlotGridEntry(cur, end, interval, i);
      ClockOrder(g[i], t);
    }
  }

  /** A well-formed time is one of a booking's occupied times exactly when
      the booking has a positive span and the time is `start + k * interval`
      before its end. */
  lemma BookedTimesMembers(b: Booking, interval: int, t: string)
    requires StepsEnd(b, interval) && IsClock(t)
    ensures t in BookedTimes(b, interval) <==>
            StrLess(b.startTime, b.endTime) && ClockMinutes(t) < ClockMinutes(b.endTime) &&
            exists i: nat :: Step(ClockMinutes(b.startTime), i, interval) == ClockMinutes(t)
  {
    if StrLess(b.startTime, b.endTime) {
      SlotGridMembers(ClockMinutes(b.startTime), ClockMinutes(b.endTime), interval, t);
    }
  }

  /** A time is booked exactly when one of the swept bookings occupies it. */
  lemma BookedSlotsMembers(bookings: seq<Booking>, interval: int, t: string)
    requires forall j :: 0 <= j < |bookings| ==> StepsEnd(bookings[j], interval)
    ensures t in BookedSlots(bookings, interval) <==>
            exists j :: 0 <= j < |bookings| && t in BookedTimes(bookings[j], interval)
  {
    var xs := Sweeps(bookings, interval);
    FlattenMembers(xs, t);
    assert forall j :: 0 <= j < |bookings| ==> xs[j] == BookedTimes(bookings[j], interval);
  }

  /** `b.startTime` onwards, one interval at a time, while before `b.endTime`:
      the inner loop of the sweep. */
  method SweepBooking(b: Booking, interval: int) returns (times: seq<string>)
    requires StepsEnd(b, interval)
    ensures times == BookedTimes(b, interval)
  {
    times := [];
    var currentTime := b.startTime;
    ghost var started := StrLess(b.startTime, b.endTime);
    ghost var start: nat := if started then ClockMinutes(b.startTime) else 0;
    ghost var end: nat := if started then ClockMinutes(b.endTime) else 0;
    while StrLess(currentTime, b.endTime)
      invariant !started ==> times == [] && currentTime == b.startTime
      invariant started ==> IsClock(currentTime) && start <= ClockMinutes(currentTime)
      invariant started ==> times + SlotGrid(ClockMinutes(currentTime), end, interval) == SlotGrid(start, end, interval)
      decreases if started && IsClock(currentTime) then end + 6000 - ClockMinutes(currentTime) else 0
    {
      ClockParses(currentTime);
      SweepStep(currentTime, b.endTime, interval, times, end, SlotGrid(start, end, interval));
      times := times + [currentTime];
      currentTime := AddMinutesToTime(currentTime, interval);
    }
    if started {
      ClockOrder(currentTime, b.endTime);
    }
  }

  /** One turn of the sweep: the current time is the next grid entry, and the
      time `interval` later is well formed and that many minutes on. */
  lemma SweepStep(cur: string, endTime: string, interval: int, times: seq<string>, end: nat, grid: seq<string>)
    requires IsClock(cur) && IsClock(endTime) && StrLess(cur, endTime) && end == ClockMinutes(endTime)
    requires interval > 0 && end + interval <= 6000
    requires times + SlotGrid(ClockMinutes(cur), end, interval) == grid
    ensures ParseClock(cur).Some?
    ensures IsClock(AddMinutesToTime(cur, interval))
    ensures ClockMinutes(AddMinutesToTime(cur, interval)) == ClockMinutes(cur) + interval
    ensures (times + [cur]) + SlotGrid(ClockMinutes(AddMinutesToTime(cur, interval)), end, interval) == grid
  {
    var c := ClockMinutes(cur);
    ClockOrder(cur, endTime);
    ClockRoundTrip(cur);
    ClockParses(cur);
    var next := AddMinutesToTime(cur, interval);
    ClockParses(next);
    SlotGridCons(c, end, interval);
    var rest := SlotGrid(c + interval, end, interval);
    assert SlotGrid(c, end, interval) == [cur] + rest;
    assert ClockMinutes(next) == c + interval;
    assert times + ([cur] + rest) == (times + [cur]) + rest;
  }

  /** Which bookings `getAvailableSlots` sweeps: not cancelled and, when a
      stylist is given, that stylist's (an unassigned booking never matches). */
  predicate IsRelevant(b: Booking, stylistId: Option<string>) {
    if Truthy(stylistId) then b.stylistId == stylistId && b.status != Cancelled
    else b.status != Cancelled
  }

  /** `addMinutesToTime(slot, duration) <= closeTime`. */
  function Fits(time: string, duration: nat, closeTime: string): bool {
    StrLessEq(AddMinutesToTime(time, duration), closeTime)
  }

  /** Below 100 hours the fit test is the minute comparison. */
  lemma FitsMeaning(time: string, duration: nat, closeTime: string)
    requires IsClock(time) && IsClock(closeTime) && ClockMinutes(time) + duration < 6000
    ensures Fits(time, duration, closeTime) <==> ClockMinutes(time) + duration <= ClockMinutes(closeTime)
  {
    ClockParses(time);
    var r := AddMinutesToTime(time, duration);
    ClockParses(r);
    ClockOrder(r, closeTime);
  }

  /** `getBookingsByShop(shopId, date)` on a given array: that shop's bookings,
      and only that date's when a date is given, in array order. */
  function ShopBookings(bookings: seq<Booking>, shopId: string, date: Option<string>): seq<Booking> {
    var shopBookings := Filter(bookings, (b: Booking) => b.shopId == shopId);
    if Truthy(date) then Filter(shopBookings, (b: Booking) => b.bookingDate == date.value)
    else shopBookings
  }

  lemma ShopBookingsMembers(bookings: seq<Booking>, shopId: string, date: Option<string>)
    ensures forall x :: x in ShopBookings(bookings, shopId, date) <==>
      x in bookings && x.shopId == shopId && (Truthy(date) ==> x.bookingDate == date.value)
  {
    var p := (b: Booking) => b.shopId == shopId;
    FilterMembers(bookings, p);
    if Truthy(date) {
      FilterMembers(Filter(bookings, p), (b: Booking) => b.bookingDate == date.value);
    }
  }

  /** Appending a booking appends it to exactly the listings it belongs to. */
  lemma ShopBookingsAppend(bookings: seq<Booking>, b: Booking, shopId: string, date: Option<string>)
    ensures ShopBookings(bookings + [b], shopId, date)
         == ShopBookings(bookings, shopId, date) +
            (if b.shopId == shopId && (Truthy(date) ==> b.bookingDate == date.value) then [b] else [])
  {
    var p := (x: Booking) => x.shopId == shopId;
    FilterConcat(bookings, [b], p);
    assert Filter([b], p) == (if p(b) then [b] else []) + Filter([], p);
    if Truthy(date) {
      var q := (x: Booking) => x.bookingDate == date.value;
      FilterConcat(Filter(bookings, p), Filter([b], p), q);
      assert Filter([b], q) == (if q(b) then [b] else []) + Filter([], q);
    }
  }

  /** The first booking with the id. */
  function BookingById(bookings: seq<Booking>, id: string): (r: Option<Booking>)
    ensures r.None? <==> forall j :: 0 <= j < |bookings| ==> bookings[j].id != id
    ensures r.Some? ==> r.value in bookings && r.value.id == id
  {
    Find(bookings, (b: Booking) => b.id == id)
  }

  /** A booking appended under an unused id is what its id now finds. */
  lemma BookingByIdAppend(bookings: seq<Booking>, b: Booking)
    requires forall j :: 0 <= j < |bookings| ==> bookings[j].id != b.id
    ensures BookingById(bookings + [b], b.id) == Some(b)
  {
    FindIndexAt(bookings + [b], (x: Booking) => x.id == b.id, |bookings|);
  }

  /** The record `createBooking` appends. */
  function BookingOf(id: string, customerId: string, customerName: string, customerPhone: string,
                     data: NewBooking, endTime: string, now: string): Booking {
    Booking(id, customerId, data.shopId, data.serviceId, OrNull(data.stylistId), data.bookingDate,
            data.startTime, endTime, Pending, OrNull(data.notes), now, None,
            Some(customerName), Some(customerPhone), None)
  }

  /** The record `createBooking` appends is pending, copies the request,
      ends the service's duration after it starts (two-digit fields, past
      24:00 when the day runs out; "NaN:NaN" when the start does not parse),
      and stores no stylist or notes when those are absent or empty. */
  lemma CreatedBookingFields(id: string, customerId: string, customerName: string, customerPhone: string,
                             data: NewBooking, duration: nat, now: string)
    ensures var b := BookingOf(id, customerId, customerName, customerPhone, data,
                               AddMinutesToTime(data.startTime, duration), now);
      b.status == Pending && b.id == id && b.customerId == customerId &&
      b.shopId == data.shopId && b.serviceId == data.serviceId &&
      b.bookingDate == data.bookingDate && b.startTime == data.startTime &&
      (b.stylistId.None? <==> !Truthy(data.stylistId)) &&
      (b.notes.None? <==> !Truthy(data.notes)) &&
      b.updatedAt.None? && b.createdAt == now
    ensures var endTime := AddMinutesToTime(data.startTime, duration);
      match ParseClock(data.startTime)
      case None => endTime == "NaN:NaN"
      case Some(start) =>
        (start + duration >= 0 ==> ParseClock(endTime) == Some(start + duration)) &&
        (0 <= start + duration < 6000 ==> IsClock(endTime))
  {
  }

  /** The slot computation of `getAvailableSlots` once the booked times are
      known: nothing without a weekday or on a closed day; otherwise the day's
      grid at the shop's interval, a slot available iff it is not booked and
      the service ends by closing time. */
  function DaySlots(shop: Shop, day: Option<int>, duration: nat, booked: seq<string>): (r: seq<TimeSlot>)
    requires day.Some? ==> HoursGridOk(shop.operatingHours, day.value, shop.slotIntervalMinutes)
    ensures day.None? || !IsShopOpenOnDay(shop.operatingHours, day.value) ==> r == []
    ensures day.Some? && IsShopOpenOnDay(shop.operatingHours, day.value) ==>
      var hours := GetOperatingHoursForDay(shop.operatingHours, day.value).value;
      var grid := TimeSlotGrid(hours.openTime, hours.closeTime, shop.slotIntervalMinutes);
      |r| == |grid| &&
      forall k :: 0 <= k < |r| ==>
        r[k].time == grid[k] &&
        (r[k].isAvailable <==> grid[k] !in booked && Fits(grid[k], duration, hours.closeTime))
  {
    if day.None? then []
    else
      var base := GetAvailableTimeSlots(shop.operatingHours, day.value, shop.slotIntervalMinutes, booked);
      var hours := GetOperatingHoursForDay(shop.operatingHours, day.value);
      if hours.None? || hours.value.isClosed then []
      else
        var closeTime := hours.value.closeTime;
        seq(|base|, k requires 0 <= k < |base| =>
          TimeSlot(base[k].time, base[k].isAvailable && Fits(base[k].time, duration, closeTime)))
  }

  /** Booking `b` occupies the well-formed time `t` at `interval`: `t` is
      `b.startTime + k * interval` for some `k`, before `b.endTime`. */
  ghost predicate Occupies(b: Booking, interval: int, t: string)
    requires StepsEnd(b, interval) && IsClock(t)
  {
    StrLess(b.startTime, b.endTime) && ClockMinutes(t) < ClockMinutes(b.endTime) &&
    exists i: nat :: Step(ClockMinutes(b.startTime), i, interval) == ClockMinutes(t)
  }

  /** On an open day, a slot of the shop's grid is offered exactly when no
      swept booking occupies it and the service ends by closing time. */
  lemma DaySlotAvailable(bookings: seq<Booking>, shop: Shop, day: int, duration: nat,
                         slots: seq<TimeSlot>, k: nat)
    requires forall j :: 0 <= j < |bookings| ==> StepsEnd(bookings[j], shop.slotIntervalMinutes)
    requires HoursGridOk(shop.operatingHours, day, shop.slotIntervalMinutes)
    requires ClockHours(shop.operatingHours, day) && IsShopOpenOnDay(shop.operatingHours, day)
    requires slots == DaySlots(shop, Some(day), duration, BookedSlots(bookings, shop.slotIntervalMinutes))
    requires k < |slots|
    ensures IsClock(slots[k].time)
    ensures slots[k].isAvailable <==>
      (forall j :: 0 <= j < |bookings| ==> !Occupies(bookings[j], shop.slotIntervalMinutes, slots[k].time)) &&
      Fits(slots[k].time, duration, GetOperatingHoursForDay(shop.operatingHours, day).value.closeTime)
  {
    AvailableTimeSlotsInHours(shop.operatingHours, day, shop.slotIntervalMinutes,
                              BookedSlots(bookings, shop.slotIntervalMinutes));
    var t := slots[k].time;
    BookedSlotsMembers(bookings, shop.slotIntervalMinutes, t);
    forall j | 0 <= j < |bookings|
      ensures t in BookedTimes(bookings[j], shop.slotIntervalMinutes) <==>
              Occupies(bookings[j], shop.slotIntervalMinutes, t)
    {
      BookedTimesMembers(bookings[j], shop.slotIntervalMinutes, t);
    }
  }

  /** The store. */
  class BookingStore {
    var bookings: seq<Booking>

    /** The store starts as a copy of the seed bookings. */
    constructor(seed: seq<Booking>)
      ensures bookings == seed
    {
      bookings := seed;
    }

    /** `getBookingsByCustomer`, without the relations it attaches. */
    function GetBookingsByCustomer(customerId: string): (r: seq<Booking>)
      reads this
      ensures forall x :: x in r <==> x in bookings && x.customerId == customerId
    {
      FilterMembers(bookings, (b: Booking) => b.customerId == customerId);
      Filter(bookings, (b: Booking) => b.customerId == customerId)
    }

    /** `getBookingsByShop`, without the relations it may attach. */
    function GetBookingsByShop(shopId: string, date: Option<string>): (r: seq<Booking>)
      reads this
      ensures forall x :: x in r <==>
        x in bookings && x.shopId == shopId && (Truthy(date) ==> x.bookingDate == date.value)
    {
      ShopBookingsMembers(bookings, shopId, date);
      ShopBookings(bookings, shopId, date)
    }

    /** `bookings.find(b => b.id === id)`, without the relations. */
    function GetBookingById(id: string): (r: Option<Booking>)
      reads this
      ensures r.None? <==> forall j :: 0 <= j < |bookings| ==> bookings[j].id != id
      ensures r.Some? ==> r.value in bookings && r.value.id == id
    {
      BookingById(bookings, id)
    }

    /** `bookings.findIndex(b => b.id === id)`. */
    function BookingIndex(id: string): (r: Option<nat>)
      reads this
      ensures r.Some? ==> r.value < |bookings| && bookings[r.value].id == id
      ensures r.None? <==> forall j :: 0 <= j < |bookings| ==> bookings[j].id != id
    {
      FindIndex(bookings, (b: Booking) => b.id == id)
    }

    /** The bookings `getAvailableSlots` sweeps for a shop's date. */
    function RelevantBookings(shopId: string, date: string, stylistId: Option<string>): (r: seq<Booking>)
      reads this
      ensures forall x :: x in r <==>
        x in bookings && x.shopId == shopId && (date != "" ==> x.bookingDate == date) &&
        x.status != Cancelled && (Truthy(stylistId) ==> x.stylistId == stylistId)
    {
      var existing := GetBookingsByShop(shopId, Some(date));
      FilterMembers(existing, (b: Booking) => IsRelevant(b, stylistId));
      Filter(existing, (b: Booking) => IsRelevant(b, stylistId))
    }

    /** What `getAvailableSlots` needs to end: every swept booking's sweep
        ends, and on a parsed weekday the day's grid can be generated. */
    predicate SlotsComputable(directory: ShopService.ShopDirectory, shopId: string, date: string,
                              stylistId: Option<string>)
      reads this, directory
    {
      match directory.GetShopById(shopId)
      case None => true
      case Some(shop) =>
        (forall b :: b in RelevantBookings(shopId, date, stylistId) ==> StepsEnd(b, shop.slotIntervalMinutes)) &&
        (DateWeekday(date).Some? ==>
           HoursGridOk(shop.operatingHours, DateWeekday(date).value, shop.slotIntervalMinutes))
    }

    /** `getAvailableSlots`: no slots for a missing shop; otherwise the
        shop's slots for the date's weekday (`DaySlots`) against the times the
        relevant bookings occupy, swept booking by booking. */
    method GetAvailableSlots(directory: ShopService.ShopDirectory, shopId: string, date: string,
                             serviceDurationMinutes: nat, stylistId: Option<string>)
      returns (slots: seq<TimeSlot>)
      requires SlotsComputable(directory, shopId, date, stylistId)
      ensures directory.GetShopById(shopId).None? ==> slots == []
      ensures directory.GetShopById(shopId).Some? ==>
        var shop := directory.GetShopById(shopId).value;
        slots == DaySlots(shop, DateWeekday(date), serviceDurationMinutes,
                          BookedSlots(RelevantBookings(shopId, date, stylistId), shop.slotIntervalMinutes))
    {
      var shopOpt := directory.GetShopById(shopId);
      if shopOpt.None? {
        return [];
      }
      var shop := shopOpt.value;
      var interval := shop.slotIntervalMinutes;
      var dayOfWeek := DateWeekday(date);
      var relevant := RelevantBookings(shopId, date, stylistId);
      assert forall j :: 0 <= j < |relevant| ==> StepsEnd(relevant[j], interval);
      var bookedSlots: seq<string> := [];
      var i := 0;
      while i < |relevant|
        invariant 0 <= i <= |relevant|
        invariant bookedSlots == Flatten(Sweeps(relevant, interval)[..i])
      {
        var times := SweepBooking(relevant[i], interval);
        FlattenPrefix(Sweeps(relevant, interval), i);
        bookedSlots := bookedSlots + times;
        i := i + 1;
      }
      assert Sweeps(relevant, interval)[..|relevant|] == Sweeps(relevant, interval);
      assert bookedSlots == BookedSlots(relevant, interval);
      slots := DaySlots(shop, dayOfWeek, serviceDurationMinutes, bookedSlots);
    }

    /** `createBooking`: throws, leaving the store as it is, when the service
        is missing or inactive; otherwise appends a pending booking that ends
        the service's duration after its start, which then shows in the shop's
        listing for its date. No conflict with other bookings is checked. */
    method CreateBooking(directory: ShopService.ShopDirectory, customerId: string, customerName: string,
                         customerPhone: string, data: NewBooking, id: string, now: string)
      returns (r: Result<Booking>)
      requires forall j :: 0 <= j < |bookings| ==> bookings[j].id != id
      modifies this
      ensures directory.GetServiceById(data.serviceId).None? ==>
        r == Failure(ServiceNotFound) && bookings == old(bookings)
      ensures directory.GetServiceById(data.serviceId).Some? ==>
        var service := directory.GetServiceById(data.serviceId).value;
        var endTime := AddMinutesToTime(data.startTime, service.durationMinutes);
        r == Ok(BookingOf(id, customerId, customerName, customerPhone, data, endTime, now)) &&
        bookings == old(bookings) + [r.value]
    {
      var service := directory.GetServiceById(data.serviceId);
      if service.None? {
        return Failure(ServiceNotFound);
      }
      var endTime := AddMinutesToTime(data.startTime, service.value.durationMinutes);
      var newBooking := BookingOf(id, customerId, customerName, customerPhone, data, endTime, now);
      bookings := bookings + [newBooking];
      r := Ok(newBooking);
    }

    /** The shared body of the three status operations: the first booking
        with the id gets the status and `updatedAt`; null when there is none.
        The prior status is not checked. */
    method SetStatus(id: string, status: Status, now: string) returns (r: Option<Booking>)
      modifies this
      ensures old(BookingIndex(id)).None? ==> r.None? && bookings == old(bookings)
      ensures old(BookingIndex(id)).Some? ==>
        var i := old(BookingIndex(id)).value;
        r == Some(old(bookings)[i].(status := status, updatedAt := Some(now))) &&
        bookings == old(bookings)[i := r.value]
      ensures |bookings| == |old(bookings)|
    {
      var index := BookingIndex(id);
      if index.None? {
        return None;
      }
      var i := index.value;
      bookings := bookings[i := bookings[i].(status := status, updatedAt := Some(now))];
      r := Some(bookings[i]);
    }

    /** `confirmBooking`. */
    method ConfirmBooking(id: string, now: string) returns (r: Option<Booking>)
      modifies this
      ensures old(BookingIndex(id)).None? ==> r.None? && bookings == old(bookings)
      ensures old(BookingIndex(id)).Some? ==>
        var i := old(BookingIndex(id)).value;
        r == Some(old(bookings)[i].(status := Confirmed, updatedAt := Some(now))) &&
        bookings == old(bookings)[i := r.value]
      ensures |bookings| == |old(bookings)|
    {
      r := SetStatus(id, Confirmed, now);
    }

    /** `cancelBooking`. */
    method CancelBooking(id: string, now: string) returns (r: Option<Booking>)
      modifies this
      ensures old(BookingIndex(id)).None? ==> r.None? && bookings == old(bookings)
      ensures old(BookingIndex(id)).Some? ==>
        var i := old(BookingIndex(id)).value;
        r == Some(old(bookings)[i].(status := Cancelled, updatedAt := Some(now))) &&
        bookings == old(bookings)[i := r.value]
      ensures |bookings| == |old(bookings)|
    {
      r := SetStatus(id, Cancelled, now);
    }

    /** `completeBooking`. */
    method CompleteBooking(id: string, now: string) returns (r: Option<Booking>)
      modifies this
      ensures old(BookingIndex(id)).None? ==> r.None? && bookings == old(bookings)
      ensures old(BookingIndex(id)).Some? ==>
        var i := old(BookingIndex(id)).value;
        r == Some(old(bookings)[i].(status := Completed, updatedAt := Some(now))) &&
        bookings == old(bookings)[i := r.value]
      ensures |bookings| == |old(bookings)|
    {
      r := SetStatus(id, Completed, now);
    }
  }
}
