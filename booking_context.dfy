/** The booking wizard of src/features/hairSalon/contexts/HairBookingContext.tsx:
    the selection state a customer fills in step by step, the step list it
    moves along, and the submit that turns the selections into a booking.
    Each `setState(prev => ...)` updater is a function on `BookingState`; the
    provider is a class whose methods apply them. The selected `Date` is its
    time value; its `toISOString()` date part is a parameter of the submit. */
module BookingWizard {
  import opened Collections
  import opened Types
  import opened TimeSlotUtils
  import BookingService
  import ShopService

  /** `BookingStep`. */
  datatype Step = ServiceStep | DateTimeStep | StylistStep | ConfirmStep | CompleteStep

  /** `STEPS`. */
  const Steps: seq<Step> := [ServiceStep, DateTimeStep, StylistStep, ConfirmStep, CompleteStep]

  /** `STEPS.indexOf(step)`: every step is in the list, at one position. */
  function StepIndex(s: Step): (i: nat)
    ensures i < |Steps| && Steps[i] == s
  {
    match s
    case ServiceStep => 0
    case DateTimeStep => 1
    case StylistStep => 2
    case ConfirmStep => 3
    case CompleteStep => 4
  }

  /** `indexOf` finds a listed step where it is listed. */
  lemma StepIndexOfSteps(i: nat)
    requires i < |Steps|
    ensures StepIndex(Steps[i]) == i
  {
  }

  /** `BookingState`. */
  datatype BookingState = BookingState(
    shopId: Option<string>,
    selectedService: Option<Service>,
    selectedDate: Option<int>,
    selectedTime: Option<string>,
    selectedStylist: Option<Stylist>,
    notes: string,
    currentStep: Step)

  /** `initialState`. */
  const InitialState: BookingState := BookingState(None, None, None, None, None, "", ServiceStep)

  const MissingFields: string := "필수 정보를 모두 입력해주세요."

  // ---- the state updaters ----

  /** The `selectService` updater: a new service clears the date and the time. */
  function WithService(s: BookingState, service: Service): (r: BookingState)
    ensures r.selectedService == Some(service) && r.selectedDate.None? && r.selectedTime.None?
    ensures r.shopId == s.shopId && r.selectedStylist == s.selectedStylist &&
            r.notes == s.notes && r.currentStep == s.currentStep
  {
    s.(selectedService := Some(service), selectedDate := None, selectedTime := None)
  }

  /** The `selectDate` updater: a new date clears the time. */
  function WithDate(s: BookingState, date: int): (r: BookingState)
    ensures r.selectedDate == Some(date) && r.selectedTime.None?
    ensures r.shopId == s.shopId && r.selectedService == s.selectedService &&
            r.selectedStylist == s.selectedStylist && r.notes == s.notes && r.currentStep == s.currentStep
  {
    s.(selectedDate := Some(date), selectedTime := None)
  }

  /** The `nextStep` updater: one position on along `STEPS`, none at the last. */
  function Next(s: BookingState): (r: BookingState)
    ensures StepIndex(s.currentStep) < |Steps| - 1 ==>
      StepIndex(r.currentStep) == StepIndex(s.currentStep) + 1 && r == s.(currentStep := r.currentStep)
    ensures s.currentStep == CompleteStep ==> r == s
  {
    var currentIndex := StepIndex(s.currentStep);
    if currentIndex < |Steps| - 1 then s.(currentStep := Steps[currentIndex + 1]) else s
  }

  /** The `prevStep` updater: one position back along `STEPS`, none at the first. */
  function Prev(s: BookingState): (r: BookingState)
    ensures StepIndex(s.currentStep) > 0 ==>
      StepIndex(r.currentStep) == StepIndex(s.currentStep) - 1 && r == s.(currentStep := r.currentStep)
    ensures s.currentStep == ServiceStep ==> r == s
  {
    var currentIndex := StepIndex(s.currentStep);
    if currentIndex > 0 then s.(currentStep := Steps[currentIndex - 1]) else s
  }

  /** Going back undoes going on, except at the last step. */
  lemma PrevUndoesNext(s: BookingState)
    requires s.currentStep != CompleteStep
    ensures Prev(Next(s)) == s
  {
    StepIndexOfSteps(StepIndex(s.currentStep));
  }

  /** Going on undoes going back, except at the first step. */
  lemma NextUndoesPrev(s: BookingState)
    requires s.currentStep != ServiceStep
    ensures Next(Prev(s)) == s
  {
    StepIndexOfSteps(StepIndex(s.currentStep));
  }

  /** `nextStep` applied `n` times. */
  function NextTimes(s: BookingState, n: nat): BookingState {
    if n == 0 then s else Next(NextTimes(s, n - 1))
  }

  /** `n` presses of "next" move `n` steps, stopping at `complete`, and
      change nothing but the step. */
  lemma {:induction false} NextTimesSaturates(s: BookingState, n: nat)
    ensures StepIndex(NextTimes(s, n).currentStep) ==
            if StepIndex(s.currentStep) + n < |Steps| then StepIndex(s.currentStep) + n else |Steps| - 1
    ensures NextTimes(s, n) == s.(currentStep := NextTimes(s, n).currentStep)
  {
    if n > 0 {
      NextTimesSaturates(s, n - 1);
    }
  }

  /** From any step, four presses of "next" reach `complete`. */
  lemma FourNextsComplete(s: BookingState)
    ensures NextTimes(s, 4).currentStep == CompleteStep
  {
    NextTimesSaturates(s, 4);
  }

  /** The booking data `submitBooking` sends, once every required selection
      is there; `isoDate` is the selected date's `toISOString()` day part. */
  function BookingData(s: BookingState, isoDate: string): (r: BookingService.NewBooking)
    requires s.shopId.Some? && s.selectedService.Some? && s.selectedTime.Some?
    ensures r.shopId == s.shopId.value && r.serviceId == s.selectedService.value.id
    ensures r.bookingDate == isoDate && r.startTime == s.selectedTime.value
    ensures r.stylistId.Some? <==> s.selectedStylist.Some? && s.selectedStylist.value.id != ""
    ensures r.notes.Some? <==> s.notes != ""
  {
    BookingService.NewBooking(
      s.shopId.value,
      s.selectedService.value.id,
      if s.selectedStylist.Some? && s.selectedStylist.value.id != "" then Some(s.selectedStylist.value.id) else None,
      isoDate,
      s.selectedTime.value,
      if s.notes != "" then Some(s.notes) else None)
  }

  /** The submit guard: the shop, the service, the date and the time must all
      be chosen; an empty shop id or time counts as missing. */
  predicate HasRequired(s: BookingState) {
    Truthy(s.shopId) && s.selectedService.Some? && s.selectedDate.Some? && Truthy(s.selectedTime)
  }

  /** `HairBookingProvider`'s state. */
  class Wizard {
    var state: BookingState
    var isLoading: bool
    var error: Option<string>
    var createdBooking: Option<Booking>

    /** The provider starts from `initialState`, not loading, without error. */
    constructor()
      ensures state == InitialState && !isLoading && error.None? && createdBooking.None?
    {
      state := InitialState;
      isLoading := false;
      error := None;
      createdBooking := None;
    }

    /** `setShopId`. */
    method SetShopId(shopId: string)
      modifies this
      ensures state == old(state).(shopId := Some(shopId))
      ensures isLoading == old(isLoading) && error == old(error) && createdBooking == old(createdBooking)
    {
      state := state.(shopId := Some(shopId));
    }

    /** `selectService`. */
    method SelectService(service: Service)
      modifies this
      ensures state == WithService(old(state), service)
      ensures isLoading == old(isLoading) && error == old(error) && createdBooking == old(createdBooking)
    {
      state := WithService(state, service);
    }

    /** `selectDate`. */
    method SelectDate(date: int)
      modifies this
      ensures state == WithDate(old(state), date)
      ensures isLoading == old(isLoading) && error == old(error) && createdBooking == old(createdBooking)
    {
      state := WithDate(state, date);
    }

    /** `selectTime`: only the time changes. */
    method SelectTime(time: string)
      modifies this
      ensures state == old(state).(selectedTime := Some(time))
      ensures isLoading == old(isLoading) && error == old(error) && createdBooking == old(createdBooking)
    {
      state := state.(selectedTime := Some(time));
    }

    /** `selectStylist`: only the stylist changes; `None` is "any stylist". */
    method SelectStylist(stylist: Option<Stylist>)
      modifies this
      ensures state == old(state).(selectedStylist := stylist)
      ensures isLoading == old(isLoading) && error == old(error) && createdBooking == old(createdBooking)
    {
      state := state.(selectedStylist := stylist);
    }

    /** `setNotes`. */
    method SetNotes(notes: string)
      modifies this
      ensures state == old(state).(notes := notes)
      ensures isLoading == old(isLoading) && error == old(error) && createdBooking == old(createdBooking)
    {
      state := state.(notes := notes);
    }

    /** `goToStep`: any step, with no check. */
    method GoToStep(step: Step)
      modifies this
      ensures state == old(state).(currentStep := step)
      ensures isLoading == old(isLoading) && error == old(error) && createdBooking == old(createdBooking)
    {
      state := state.(currentStep := step);
    }

    /** `nextStep`. */
    method NextStep()
      modifies this
      ensures state == Next(old(state))
      ensures isLoading == old(isLoading) && error == old(error) && createdBooking == old(createdBooking)
    {
      state := Next(state);
    }

    /** `prevStep`. */
    method PrevStep()
      modifies this
      ensures state == Prev(old(state))
      ensures isLoading == old(isLoading) && error == old(error) && createdBooking == old(createdBooking)
    {
      state := Prev(state);
    }

    /** `submitBooking`. Without a user, or with a required selection
        missing, it only sets the error and returns null. Otherwise it calls
        `createBooking`: on success the booking is remembered, the error
        cleared and the wizard moves to `complete`; when the service is
        missing the error is the thrown message and the step stays. Loading
        is off again afterwards. */
    method SubmitBooking(user: Option<User>, store: BookingService.BookingStore,
                         directory: ShopService.ShopDirectory, isoDate: string, id: string, now: string)
      returns (r: Option<Booking>)
      requires forall j :: 0 <= j < |store.bookings| ==> store.bookings[j].id != id
      modifies this, store
      ensures user.None? ==>
        r.None? && error == Some(LoginRequired) && state == old(state) &&
        isLoading == old(isLoading) && createdBooking == old(createdBooking) && store.bookings == old(store.bookings)
      ensures user.Some? && !HasRequired(old(state)) ==>
        r.None? && error == Some(MissingFields) && state == old(state) &&
        isLoading == old(isLoading) && createdBooking == old(createdBooking) && store.bookings == old(store.bookings)
      ensures user.Some? && HasRequired(old(state)) ==>
        !isLoading &&
        var service := old(state).selectedService.value;
        (directory.GetServiceById(service.id).None? ==>
           r.None? && error == Some(BookingService.ServiceNotFound) && state == old(state) &&
           createdBooking == old(createdBooking) && store.bookings == old(store.bookings)) &&
        (directory.GetServiceById(service.id).Some? ==>
           r.Some? && createdBooking == r && error.None? &&
           state == old(state).(currentStep := CompleteStep) &&
           store.bookings == old(store.bookings) + [r.value] &&
           r.value.customerId == user.value.id && r.value.status == Pending &&
           r.value.shopId == old(state).shopId.value && r.value.serviceId == service.id &&
           r.value.bookingDate == isoDate && r.value.startTime == old(state).selectedTime.value &&
           r.value == BookingService.BookingOf(id, user.value.id, user.value.name, PhoneOf(user.value),
                        BookingData(old(state), isoDate),
                        AddMinutesToTime(old(state).selectedTime.value,
                                         directory.GetServiceById(service.id).value.durationMinutes), now))
    {
      if user.None? {
        error := Some(LoginRequired);
        return None;
      }
      if !HasRequired(state) {
        error := Some(MissingFields);
        return None;
      }
      isLoading := true;
      error := None;
      var bookingData := BookingData(state, isoDate);
      ghost var found := directory.GetServiceById(bookingData.serviceId);
      label BeforeCall:
      var result := store.CreateBooking(directory, user.value.id, user.value.name, PhoneOf(user.value),
                                        bookingData, id, now);
      assert unchanged@BeforeCall(this);
      assert directory.GetServiceById(bookingData.serviceId) == found;
      assert bookingData.serviceId == old(state).selectedService.value.id;
      if result.Failure? {
        error := Some(result.message);
        isLoading := false;
        assert directory.GetServiceById(old(state).selectedService.value.id).None?;
        return None;
      }
      createdBooking := Some(result.value);
      state := state.(currentStep := CompleteStep);
      isLoading := false;
      assert directory.GetServiceById(old(state).selectedService.value.id).Some?;
      return createdBooking;
    }

    /** `resetBooking`: back to `initialState`, with no created booking and
        no error; the loading flag is left as it is. */
    method ResetBooking()
      modifies this
      ensures state == InitialState && createdBooking.None? && error.None?
      ensures isLoading == old(isLoading)
    {
      state := InitialState;
      createdBooking := None;
      error := None;
    }
  }
}
