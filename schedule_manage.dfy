/** The owner's schedule page: the month window its booking list is cut to,
    the month navigation, the four status tallies and the actions its
    booking dialog offers. */
module ScheduleManage {
  import opened Collections
  import opened Text
  import opened Types
  import opened Calendar
  import opened IsoDates

  // ---- the displayed month ----

  /** The month before a 0-based `month` of `year`: January steps back to
      December of the previous year. */
  function PrevMonth(year: int, month: int): (r: (int, int))
    requires 0 <= month <= 11
    ensures 0 <= r.1 <= 11
    ensures r.0 * 12 + r.1 == year * 12 + month - 1
  {
    if month == 0 then (year - 1, 11) else (year, month - 1)
  }

  /** The month after: December steps on to January of the next year. */
  function NextMonth(year: int, month: int): (r: (int, int))
    requires 0 <= month <= 11
    ensures 0 <= r.1 <= 11
    ensures r.0 * 12 + r.1 == year * 12 + month + 1
  {
    if month == 11 then (year + 1, 0) else (year, month + 1)
  }

  /** Stepping back and forth returns to the same month. */
  lemma {:induction false} PrevNextInverse(year: int, month: int)
    requires 0 <= month <= 11
    ensures NextMonth(PrevMonth(year, month).0, PrevMonth(year, month).1) == (year, month)
    ensures PrevMonth(NextMonth(year, month).0, NextMonth(year, month).1) == (year, month)
  {
    var p := PrevMonth(year, month);
    var n := NextMonth(year, month);
    MonthIndexUnique(NextMonth(p.0, p.1), (year, month));
    MonthIndexUnique(PrevMonth(n.0, n.1), (year, month));
  }

  /** A month is determined by its count `year * 12 + month`. */
  lemma MonthIndexUnique(a: (int, int), b: (int, int))
    requires 0 <= a.1 <= 11 && 0 <= b.1 <= 11
    requires a.0 * 12 + a.1 == b.0 * 12 + b.1
    ensures a == b
  {
  }

  /** `${year}-${pad(month + 1)}-01`: the first day of a 0-based month. */
  function MonthStart(year: int, month: nat): string {
    IntToString(year) + "-" + Pad2(month + 1) + "-01"
  }

  /** The first day of the following month, December rolling over into
      January of the next year. */
  function MonthEnd(year: int, month: nat): string
    requires month <= 11
  {
    var next := NextMonth(year, month);
    MonthStart(next.0, next.1)
  }

  /** `monthStart <= bookingDate && bookingDate < monthEnd`, on strings. */
  predicate InMonth(b: Booking, year: int, month: nat)
    requires month <= 11
  {
    StrLessEq(MonthStart(year, month), b.bookingDate) && StrLess(b.bookingDate, MonthEnd(year, month))
  }

  /** The bookings the page lists for its month. */
  function MonthBookings(bookings: seq<Booking>, year: int, month: nat): (r: seq<Booking>)
    requires month <= 11
    ensures forall x :: x in r <==> x in bookings && InMonth(x, year, month)
  {
    FilterMembers(bookings, (b: Booking) => InMonth(b, year, month));
    Filter(bookings, (b: Booking) => InMonth(b, year, month))
  }

  /** The first day of a month, for a four-digit year, is a date text with
      that year, month and day 1. */
  lemma MonthStartFields(year: int, month: nat)
    requires 1000 <= year <= 9999 && month <= 11
    ensures IsDateShape(MonthStart(year, month))
    ensures YearField(MonthStart(year, month)) == year
    ensures MonthField(MonthStart(year, month)) == month + 1
    ensures DayField(MonthStart(year, month)) == 1
  {
    Pad2Digits(1);
    assert Pad2(1) == "01";
    BuiltDateFields(MonthStart(year, month), year, month + 1, 1);
  }

  /** The string window keeps exactly the valid dates of the displayed
      month, December included, for the four-digit years. */
  lemma InMonthMeaning(b: Booking, year: int, month: nat)
    requires 1000 <= year <= 9998 && month <= 11
    requires IsDateText(b.bookingDate)
    ensures InMonth(b, year, month) <==>
            YearField(b.bookingDate) == year && MonthField(b.bookingDate) == month + 1
  {
    var start, end := MonthStart(year, month), MonthEnd(year, month);
    var next := NextMonth(year, month);
    MonthStartFields(year, month);
    MonthStartFields(next.0, next.1);
    DateTextOrder(start, b.bookingDate);
    DateTextOrder(b.bookingDate, end);
    StrLessEqMeaning(start, b.bookingDate);
  }

  /** The month state of the page: a year and a 0-based month. */
  class MonthNav {
    var currentYear: int
    var currentMonth: int

    ghost predicate Valid()
      reads this
    {
      0 <= currentMonth <= 11
    }

    /** Both start at the current local year and month of `now`. */
    constructor(now: int)
      ensures Valid()
      ensures currentYear == GetFullYear(now) && currentMonth == GetMonth(now)
    {
      currentYear := GetFullYear(now);
      currentMonth := GetMonth(now);
    }

    /** `goToPrevMonth`. */
    method GoToPrevMonth()
      requires Valid()
      modifies this
      ensures Valid()
      ensures (currentYear, currentMonth) == PrevMonth(old(currentYear), old(currentMonth))
    {
      if currentMonth == 0 {
        currentMonth := 11;
        currentYear := currentYear - 1;
      } else {
        currentMonth := currentMonth - 1;
      }
    }

    /** `goToNextMonth`. */
    method GoToNextMonth()
      requires Valid()
      modifies this
      ensures Valid()
      ensures (currentYear, currentMonth) == NextMonth(old(currentYear), old(currentMonth))
    {
      if currentMonth == 11 {
        currentMonth := 0;
        currentYear := currentYear + 1;
      } else {
        currentMonth := currentMonth + 1;
      }
    }

    /** `goToToday`. */
    method GoToToday(now: int)
      modifies this
      ensures Valid()
      ensures currentYear == GetFullYear(now) && currentMonth == GetMonth(now)
    {
      currentYear := GetFullYear(now);
      currentMonth := GetMonth(now);
    }
  }

  // ---- the status tallies ----

  /** `bookings.filter(b => b.status === status).length`. */
  function CountStatus(bookings: seq<Booking>, status: Status): nat {
    |Filter(bookings, (b: Booking) => b.status == status)|
  }

  /** Every booking has exactly one of the four statuses, so the four
      tallies add up to the number of listed bookings. */
  lemma {:induction false} StatusCountsSum(bookings: seq<Booking>)
    ensures CountStatus(bookings, Confirmed) + CountStatus(bookings, Pending) +
            CountStatus(bookings, Completed) + CountStatus(bookings, Cancelled) == |bookings|
    decreases |bookings|
  {
    if bookings != [] {
      StatusCountsSum(bookings[1..]);
    }
  }

  // ---- the booking dialog's actions ----

  datatype Action = CancelAction | ConfirmAction | CompleteAction

  /** The status the store gives a booking when the action is taken. */
  function ActionStatus(a: Action): Status {
    match a
    case CancelAction => Cancelled
    case ConfirmAction => Confirmed
    case CompleteAction => Completed
  }

  /** The dialog's buttons, in order: none for no booking or a cancelled or
      completed one; otherwise cancel, then confirm for a pending booking
      or complete for a confirmed one. */
  function ActionsFor(selected: Option<Booking>): (r: seq<Action>)
    ensures selected.None? ==> r == []
  {
    if selected.Some? && selected.value.status != Cancelled && selected.value.status != Completed then
      [CancelAction] +
      (if selected.value.status == Pending then [ConfirmAction] else []) +
      (if selected.value.status == Confirmed then [CompleteAction] else [])
    else []
  }

  /** The booking life cycle the dialog follows: a pending booking is
      confirmed or cancelled, a confirmed one completed or cancelled, and a
      completed or cancelled one is final. */
  predicate Advances(from: Status, to: Status) {
    match from
    case Pending => to == Confirmed || to == Cancelled
    case Confirmed => to == Completed || to == Cancelled
    case Completed => false
    case Cancelled => false
  }

  /** The dialog offers exactly the actions that advance the booking along
      its life cycle, each once; so it never offers to complete a pending
      booking, and a final booking gets no actions. */
  lemma ActionsFollowLifecycle(b: Booking)
    ensures forall a :: a in ActionsFor(Some(b)) <==> Advances(b.status, ActionStatus(a))
    ensures b.status == Pending ==> CompleteAction !in ActionsFor(Some(b))
    ensures b.status == Cancelled || b.status == Completed <==> ActionsFor(Some(b)) == []
    ensures |ActionsFor(Some(b))| == 0 || |ActionsFor(Some(b))| == 2
  {
  }
}
