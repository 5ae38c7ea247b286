/** The records the booking platform keeps: shops with weekly operating hours,
    stylists, services and bookings (src/core/types and src/features/hairSalon/types). */
module Types {
  import opened Collections

  /** `BookingStatus`. */
  datatype Status = Pending | Confirmed | Completed | Cancelled

  /** The status as it is stored and displayed ('pending', ...). */
  function StatusName(s: Status): string {
    match s
    case Pending => "pending"
    case Confirmed => "confirmed"
    case Completed => "completed"
    case Cancelled => "cancelled"
  }

  /** One weekday's opening window; `dayOfWeek` 0 is Sunday. */
  datatype OperatingHours = OperatingHours(dayOfWeek: int, openTime: string, closeTime: string, isClosed: bool)

  datatype Shop = Shop(
    id: string,
    name: string,
    ownerId: string,
    address: string,
    phone: string,
    description: Option<string>,
    slotIntervalMinutes: int,
    operatingHours: seq<OperatingHours>,
    imageUrl: Option<string>,
    isActive: bool,
    createdAt: string,
    updatedAt: Option<string>)

  datatype Stylist = Stylist(
    id: string,
    shopId: string,
    name: string,
    title: string,
    profileImage: Option<string>,
    introduction: Option<string>,
    isActive: bool,
    createdAt: string)

  datatype Service = Service(
    id: string,
    shopId: string,
    name: string,
    description: Option<string>,
    durationMinutes: nat,
    price: int,
    category: string,
    isActive: bool,
    createdAt: string)

  /** A booking record; `service` is the relation a fetch may populate. */
  datatype Booking = Booking(
    id: string,
    customerId: string,
    shopId: string,
    serviceId: string,
    stylistId: Option<string>,
    bookingDate: string,
    startTime: string,
    endTime: string,
    status: Status,
    notes: Option<string>,
    createdAt: string,
    updatedAt: Option<string>,
    customerName: Option<string>,
    customerPhone: Option<string>,
    service: Option<Service>)

  /** `TimeSlot` and `HairBookingSlot`: a candidate start time and whether it can be booked. */
  datatype TimeSlot = TimeSlot(time: string, isAvailable: bool)

  /** JavaScript truthiness of an optional string: absent and empty are both false. */
  predicate Truthy(s: Option<string>) {
    s.Some? && s.value != ""
  }

  /** `s || null` for an optional string. */
  function OrNull(s: Option<string>): (r: Option<string>)
    ensures r.Some? <==> Truthy(s)
    ensures r.Some? ==> r == s
  {
    if Truthy(s) then s else None
  }

  /** The signed-in user, as the booking code reads it. */
  datatype User = User(id: string, name: string, phone: Option<string>)

  /** The error both booking entry points set when nobody is signed in. */
  const LoginRequired: string := "로그인이 필요합니다."

  /** `user.phone || ''`: an absent or empty phone is sent as empty. */
  function PhoneOf(user: User): (r: string)
    ensures Truthy(user.phone) ==> r == user.phone.value
    ensures !Truthy(user.phone) ==> r == ""
  {
    if Truthy(user.phone) then user.phone.value else ""
  }
}
