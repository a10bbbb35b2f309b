/** Conversions between bookings and their transfer objects. */
module BookingMapper {
  import opened Common
  import opened Model

  datatype UserDto = UserDto(id: nat, name: string, email: string)
  datatype ItemDto = ItemDto(id: nat, name: string, description: string, available: bool, request: Option<nat>)
  datatype BookingDto = BookingDto(id: nat, start: int, end: int, item: ItemDto, booker: UserDto, status: Status)

  /** The body of a booking request: its window and the item asked for. */
  datatype BookingCreateDto = BookingCreateDto(start: int, end: int, itemId: nat)

  /** The reduced view of a booking attached to an item listing: its window only. */
  datatype BookingDate = BookingDate(start: int, end: int)

  /** UserMapper.toUserDto: id, name and email. */
  function ToUserDto(u: User): (r: UserDto)
    ensures r.id == u.id && r.name == u.name && r.email == u.email
  {
    UserDto(u.id, u.name, u.email)
  }

  /** ItemMapper.toItemDto: id, name, description, availability and the request answered. */
  function ToItemDto(i: Item): (r: ItemDto)
    ensures r.id == i.id && r.name == i.name && r.description == i.description
    ensures r.available == i.available && r.request == i.request
  {
    ItemDto(i.id, i.name, i.description, i.available, i.request)
  }

  /** toBookingDto: every field of the booking, with item and booker as their own transfer objects. */
  function ToBookingDto(b: Booking): (r: BookingDto)
    ensures r.id == b.id && r.start == b.start && r.end == b.end && r.status == b.status
    ensures r.item == ToItemDto(b.item) && r.booker == ToUserDto(b.booker)
  {
    BookingDto(b.id, b.start, b.end, ToItemDto(b.item), ToUserDto(b.booker), b.status)
  }

  /** toBooking: a booking not yet saved (id 0) with the requested window, the given booker, status and item. */
  function ToBooking(dto: BookingCreateDto, booker: User, status: Status, item: Item): (r: Booking)
    ensures r.start == dto.start && r.end == dto.end
    ensures r.booker == booker && r.item == item && r.status == status
  {
    Booking(0, dto.start, dto.end, item, booker, status)
  }

  /** toBookingDateDto: null stays null; otherwise exactly the start and the end. */
  function ToBookingDateDto(b: Option<Booking>): (r: Option<BookingDate>)
    ensures b.None? <==> r.None?
    ensures b.Some? ==> r == Some(BookingDate(b.value.start, b.value.end))
  {
    match b
    case None => None
    case Some(x) => Some(BookingDate(x.start, x.end))
  }

  function ToBookingDtos(bs: seq<Booking>): (r: seq<BookingDto>)
    ensures |r| == |bs|
    ensures forall k :: 0 <= k < |bs| ==> r[k] == ToBookingDto(bs[k])
  {
    seq(|bs|, k requires 0 <= k < |bs| => ToBookingDto(bs[k]))
  }
}
