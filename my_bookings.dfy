/** A customer's own bookings: the list sorted newest first, its split into
    upcoming and past bookings, and the cancel and create wrappers around
    the booking store. */
module MyBookings {
  import opened Collections
  import opened Text
  import opened Types
  import opened TimeSlotUtils
  import opened IsoDates
  import BookingService
  import ShopService

  /** `new Date(`${b.bookingDate}T${b.startTime}`)`; `None` is NaN. */
  function Moment(b: Booking): Option<int> {
    ParseDateTime(b.bookingDate, b.startTime)
  }

  // ---- newest first ----

  /** The comparator `dateB.getTime() - dateA.getTime()` is negative, so
      that `a` goes first, exactly when both parse and `a` is later; a NaN
      difference counts as 0. */
  predicate Later<T>(key: T -> Option<int>, a: T, b: T) {
    key(a).Some? && key(b).Some? && key(a).value > key(b).value
  }

  /** No element is followed by one that is strictly later. */
  predicate SortedLatestFirst<T>(s: seq<T>, key: T -> Option<int>) {
    forall i, j :: 0 <= i < j < |s| ==> !Later(key, s[j], s[i])
  }

  /** Places `x`, which came after every element of `s` in the input,
      before the first element it is strictly later than. */
  function Insert<T>(x: T, s: seq<T>, key: T -> Option<int>): (r: seq<T>)
    ensures |r| == |s| + 1
    decreases |s|
  {
    if s == [] then [x]
    else if Later(key, x, s[0]) then [x] + s
    else [s[0]] + Insert(x, s[1..], key)
  }

  /** `sort` with that comparator, as a stable insertion sort. */
  function SortLatestFirst<T>(s: seq<T>, key: T -> Option<int>): (r: seq<T>)
    ensures |r| == |s|
    decreases |s|
  {
    if s == [] then [] else Insert(s[|s| - 1], SortLatestFirst(s[..|s| - 1], key), key)
  }

  /** The fetched bookings, newest first. */
  function SortNewestFirst(s: seq<Booking>): (r: seq<Booking>)
    ensures |r| == |s|
  {
    SortLatestFirst(s, Moment)
  }

  lemma {:induction false} InsertPermutes<T>(x: T, s: seq<T>, key: T -> Option<int>)
    ensures multiset(Insert(x, s, key)) == multiset(s) + multiset{x}
    decreases |s|
  {
    if s != [] && !Later(key, x, s[0]) {
      InsertPermutes(x, s[1..], key);
      assert s == [s[0]] + s[1..];
    }
  }

  lemma {:induction false} InsertSorted<T>(x: T, s: seq<T>, key: T -> Option<int>)
    requires SortedLatestFirst(s, key)
    ensures SortedLatestFirst(Insert(x, s, key), key)
    decreases |s|
  {
    if s != [] && !Later(key, x, s[0]) {
      var tail := s[1..];
      assert SortedLatestFirst(tail, key) by {
        forall i, j | 0 <= i < j < |tail| ensures !Later(key, tail[j], tail[i]) {
          assert tail[j] == s[j + 1] && tail[i] == s[i + 1];
        }
      }
      InsertSorted(x, tail, key);
      InsertPermutes(x, tail, key);
      var rest := Insert(x, tail, key);
      var r := [s[0]] + rest;
      assert r == Insert(x, s, key);
      forall i, j | 0 <= i < j < |r| ensures !Later(key, r[j], r[i]) {
        if i > 0 {
          assert r[i] == rest[i - 1] && r[j] == rest[j - 1];
        } else {
          var y := r[j];
          assert y in rest by { assert y == rest[j - 1]; }
          assert y in multiset(tail) + multiset{x};
          if y != x {
            var k :| 0 <= k < |tail| && tail[k] == y;
            assert s[k + 1] == y;
          }
        }
      }
    }
  }

  /** The sorted list holds the same elements, each as often, and no
      element in it is followed by a strictly later one. */
  lemma {:induction false} SortLatestFirstCorrect<T>(s: seq<T>, key: T -> Option<int>)
    ensures multiset(SortLatestFirst(s, key)) == multiset(s)
    ensures SortedLatestFirst(SortLatestFirst(s, key), key)
    decreases |s|
  {
    if s != [] {
      var front := s[..|s| - 1];
      SortLatestFirstCorrect(front, key);
      InsertPermutes(s[|s| - 1], SortLatestFirst(front, key), key);
      InsertSorted(s[|s| - 1], SortLatestFirst(front, key), key);
      assert s == front + [s[|s| - 1]];
    }
  }

  /** A booking whose date and start time are well formed, before midnight. */
  predicate WellTimed(b: Booking) {
    IsDateText(b.bookingDate) && IsClock(b.startTime) && HourOf(b.startTime) < 24
  }

  /** When every booking is well timed, the sorted list is in descending
      order of (bookingDate, startTime) compared as strings. */
  lemma SortedByDateThenTime(s: seq<Booking>)
    requires forall b :: b in s ==> WellTimed(b)
    ensures forall i, j :: 0 <= i < j < |SortNewestFirst(s)| ==>
      var a, b := SortNewestFirst(s)[i], SortNewestFirst(s)[j];
      !StrLess(a.bookingDate, b.bookingDate) &&
      (a.bookingDate == b.bookingDate ==> !StrLess(a.startTime, b.startTime))
  {
    var r := SortNewestFirst(s);
    SortLatestFirstCorrect(s, Moment);
    forall i, j | 0 <= i < j < |r|
      ensures !StrLess(r[i].bookingDate, r[j].bookingDate) &&
              (r[i].bookingDate == r[j].bookingDate ==> !StrLess(r[i].startTime, r[j].startTime))
    {
      assert r[i] in multiset(r) && r[j] in multiset(r);
      NotLaterByText(r[i], r[j]);
    }
  }

  /** For well-timed bookings, "not strictly later" is string order on
      (bookingDate, startTime). */
  lemma NotLaterByText(a: Booking, b: Booking)
    requires WellTimed(a) && WellTimed(b) && !Later(Moment, b, a)
    ensures !StrLess(a.bookingDate, b.bookingDate) &&
            (a.bookingDate == b.bookingDate ==> !StrLess(a.startTime, b.startTime))
  {
    DateTimeOrder(a.bookingDate, a.startTime, b.bookingDate, b.startTime);
  }

  // ---- upcoming and past ----

  /** The `upcomingBookings` filter: not cancelled, not completed, and
      starting at or after `now`. */
  predicate IsUpcoming(b: Booking, now: int) {
    b.status != Cancelled && b.status != Completed && Moment(b).Some? && Moment(b).value >= now
  }

  /** The `pastBookings` filter: completed, or cancelled, or starting before `now`. */
  predicate IsPast(b: Booking, now: int) {
    b.status == Completed || b.status == Cancelled || (Moment(b).Some? && Moment(b).value < now)
  }

  function Upcoming(bookings: seq<Booking>, now: int): (r: seq<Booking>)
    ensures forall x :: x in r <==> x in bookings && IsUpcoming(x, now)
  {
    FilterMembers(bookings, (b: Booking) => IsUpcoming(b, now));
    Filter(bookings, (b: Booking) => IsUpcoming(b, now))
  }

  function Past(bookings: seq<Booking>, now: int): (r: seq<Booking>)
    ensures forall x :: x in r <==> x in bookings && IsPast(x, now)
  {
    FilterMembers(bookings, (b: Booking) => IsPast(b, now));
    Filter(bookings, (b: Booking) => IsPast(b, now))
  }

  /** No booking is both upcoming and past; a booking whose moment parses
      is one of the two; an open booking whose moment does not parse (NaN
      compares false both ways) is neither. */
  lemma UpcomingPastPartition(b: Booking, now: int)
    ensures !(IsUpcoming(b, now) && IsPast(b, now))
    ensures Moment(b).Some? ==> IsUpcoming(b, now) || IsPast(b, now)
    ensures Moment(b).None? && b.status != Cancelled && b.status != Completed ==>
            !IsUpcoming(b, now) && !IsPast(b, now)
  {
  }

  /** When every moment parses, the two lists together hold each booking
      exactly once. */
  lemma UpcomingPastCount(bookings: seq<Booking>, now: int)
    requires forall i :: 0 <= i < |bookings| ==> Moment(bookings[i]).Some?
    ensures multiset(Upcoming(bookings, now)) + multiset(Past(bookings, now)) == multiset(bookings)
    ensures |Upcoming(bookings, now)| + |Past(bookings, now)| == |bookings|
  {
    FilterComplement(bookings, (b: Booking) => IsUpcoming(b, now), (b: Booking) => IsPast(b, now));
    FilterComplementCount(bookings, (b: Booking) => IsUpcoming(b, now), (b: Booking) => IsPast(b, now));
  }

  // ---- the store wrappers ----

  /** `cancelBooking` of the hook: the store's cancel, which does not throw
      (it returns null for an unknown id), then `true`. */
  method CancelBooking(store: BookingService.BookingStore, bookingId: string, now: string) returns (ok: bool)
    modifies store
    ensures ok
    ensures old(store.BookingIndex(bookingId)).None? ==> store.bookings == old(store.bookings)
    ensures old(store.BookingIndex(bookingId)).Some? ==>
      var i := old(store.BookingIndex(bookingId)).value;
      store.bookings == old(store.bookings)[i := old(store.bookings)[i].(status := Cancelled, updatedAt := Some(now))]
  {
    var _ := store.CancelBooking(bookingId, now);
    ok := true;
  }

  /** `useCreateHairBooking`: its loading flag and error message. */
  class CreateHook {
    var isLoading: bool
    var error: Option<string>

    constructor()
      ensures !isLoading && error.None?
    {
      isLoading := false;
      error := None;
    }

    /** `createBooking`: without a user, the error is set and null returned
        without touching the store; otherwise the store's `createBooking`,
        whose thrown message becomes the error. Loading ends cleared. */
    method CreateBooking(store: BookingService.BookingStore, directory: ShopService.ShopDirectory,
                         user: Option<User>, data: BookingService.NewBooking, id: string, now: string)
      returns (r: Option<Booking>)
      requires forall j :: 0 <= j < |store.bookings| ==> store.bookings[j].id != id
      modifies this, store
      ensures user.None? ==> isLoading == old(isLoading)
      ensures user.Some? ==> !isLoading
      ensures user.None? ==> r.None? && error == Some(LoginRequired) && store.bookings == old(store.bookings)
      ensures user.Some? && directory.GetServiceById(data.serviceId).None? ==>
        r.None? && error == Some(BookingService.ServiceNotFound) && store.bookings == old(store.bookings)
      ensures user.Some? && directory.GetServiceById(data.serviceId).Some? ==>
        r.Some? && error.None? && store.bookings == old(store.bookings) + [r.value] &&
        r.value.id == id && r.value.customerId == user.value.id && r.value.status == Pending &&
        r.value == BookingService.BookingOf(id, user.value.id, user.value.name, PhoneOf(user.value), data,
                     AddMinutesToTime(data.startTime, directory.GetServiceById(data.serviceId).value.durationMinutes),
                     now)
    {
      if user.None? {
        error := Some(LoginRequired);
        return None;
      }
      isLoading := true;
      error := None;
      var u := user.value;
      var result := store.CreateBooking(directory, u.id, u.name, PhoneOf(u), data, id, now);
      if result.Failure? {
        error := Some(result.message);
        r := None;
      } else {
        r := Some(result.value);
      }
      isLoading := false;
    }
  }
}
