/** The booking card of a customer's list: its status badge and whether it
    offers to cancel. */
module BookingCard {
  import opened Collections
  import opened Types
  import opened MyBookings

  /** A status badge: its text and CSS class. */
  datatype Label = Label(text: string, className: string)

  /** `STATUS_LABELS[status] || { text: status, className: '' }` on the
      status text as it arrives from the store. */
  function StatusLabel(status: string): (r: Label)
    ensures status == "pending" ==> r == Label("대기중", "status-pending")
    ensures status == "confirmed" ==> r == Label("확정", "status-confirmed")
    ensures status == "completed" ==> r == Label("완료", "status-completed")
    ensures status == "cancelled" ==> r == Label("취소됨", "status-cancelled")
  {
    if status == "pending" then Label("대기중", "status-pending")
    else if status == "confirmed" then Label("확정", "status-confirmed")
    else if status == "completed" then Label("완료", "status-completed")
    else if status == "cancelled" then Label("취소됨", "status-cancelled")
    else Label(status, "")
  }

  /** Each of the four statuses gets its own class, named after it. */
  lemma KnownStatusLabel(s: Status)
    ensures StatusLabel(StatusName(s)).className == "status-" + StatusName(s)
  {
  }

  /** Any other text is shown as it is, with no class. */
  lemma UnknownStatusLabel(status: string)
    requires forall s: Status :: StatusName(s) != status
    ensures StatusLabel(status) == Label(status, "")
  {
    assert StatusName(Pending) != status && StatusName(Confirmed) != status;
    assert StatusName(Completed) != status && StatusName(Cancelled) != status;
  }

  /** `canCancel = !isPast && status is neither cancelled nor completed`,
      with `isPast = bookingDateTime < now`, false for an Invalid Date. */
  predicate CanCancel(b: Booking, now: int) {
    !(Moment(b).Some? && Moment(b).value < now) && b.status != Cancelled && b.status != Completed
  }

  /** A booking whose moment parses can be cancelled exactly when it is in
      the upcoming list; one whose moment does not parse can still be
      cancelled while open, though it is in neither list. */
  lemma CanCancelIffUpcoming(b: Booking, now: int)
    ensures Moment(b).Some? ==> (CanCancel(b, now) <==> IsUpcoming(b, now))
    ensures Moment(b).None? ==> (CanCancel(b, now) <==> b.status != Cancelled && b.status != Completed)
    ensures CanCancel(b, now) ==> !IsPast(b, now)
  {
  }

  /** `showActions && canCancel && onCancel`. */
  predicate ShowsCancel(showActions: bool, canCancel: bool, hasOnCancel: bool) {
    showActions && canCancel && hasOnCancel
  }

  /** The cancel button appears only on an open booking that has not yet
      started, and only where the list asks for actions and handles them. */
  lemma CancelButtonOnlyOnOpenBookings(b: Booking, now: int, showActions: bool, hasOnCancel: bool)
    ensures ShowsCancel(showActions, CanCancel(b, now), hasOnCancel) ==>
            showActions && hasOnCancel && (b.status == Pending || b.status == Confirmed) && !IsPast(b, now)
    ensures showActions && hasOnCancel && IsUpcoming(b, now) ==> ShowsCancel(showActions, CanCancel(b, now), hasOnCancel)
  {
  }
}
