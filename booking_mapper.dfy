/** Conversions between the booking record and its transfer objects. */
module BookingMapper {
  import opened Common
  import opened Sequences
  import opened Bookings

  /** What a client sends to create a booking; the status may be null. */
  datatype BookingCreateDto = BookingCreateDto(
    id: int,
    start: Instant,
    end: Instant,
    itemId: int,
    status: Option<BookingStatus>)

  /** What the service returns. The item and the booker are carried as
      their ids (with the item's owner id). */
  datatype BookingDto = BookingDto(
    id: int,
    start: Instant,
    end: Instant,
    itemId: int,
    ownerId: int,
    bookerId: int,
    status: BookingStatus)

  /** Optional.ofNullable(status).orElse(WAITING). */
  function StatusOrWaiting(s: Option<BookingStatus>): (r: BookingStatus)
    ensures s.None? ==> r == WAITING
    ensures s.Some? ==> r == s.value
  {
    match s
    case None => WAITING
    case Some(v) => v
  }

  /** mapBookingCreateToBooking: the booking keeps the DTO's id and dates,
      refers to the given item (and through it to its owner) and to the
      booker, and takes the DTO's status or WAITING when it is null. */
  function MapCreateToBooking(dto: BookingCreateDto, item: ItemRef, bookerId: int): (b: Booking)
    ensures b.id == dto.id && b.start == dto.start && b.end == dto.end
    ensures b.itemId == item.id && b.ownerId == item.ownerId && b.bookerId == bookerId
    ensures b.status == StatusOrWaiting(dto.status)
  {
    Booking(dto.id, dto.start, dto.end, item.id, item.ownerId, bookerId, StatusOrWaiting(dto.status))
  }

  /** mapBookingToBookingDto: every field copied. */
  function MapToDto(b: Booking): (d: BookingDto)
    ensures d.id == b.id && d.start == b.start && d.end == b.end
    ensures d.itemId == b.itemId && d.ownerId == b.ownerId && d.bookerId == b.bookerId
    ensures d.status == b.status
  {
    BookingDto(b.id, b.start, b.end, b.itemId, b.ownerId, b.bookerId, b.status)
  }

  /** The booking a DTO describes (the inverse of MapToDto). */
  function FromDto(d: BookingDto): Booking
  {
    Booking(d.id, d.start, d.end, d.itemId, d.ownerId, d.bookerId, d.status)
  }

  /** The create request that reproduces a booking. */
  function ToCreateDto(b: Booking): BookingCreateDto
  {
    BookingCreateDto(b.id, b.start, b.end, b.itemId, Some(b.status))
  }

  /** mapBookingsToBookingDtos: a stream map, so same length and order. */
  function MapToDtos(bs: seq<Booking>): (ds: seq<BookingDto>)
    ensures |ds| == |bs|
    ensures forall k :: 0 <= k < |bs| ==> ds[k] == MapToDto(bs[k])
  {
    MapSeq(bs, MapToDto)
  }

  /** MapToDto loses nothing: FromDto undoes it, and MapToDto undoes
      FromDto. */
  lemma DtoRoundTrip(b: Booking, d: BookingDto)
    ensures FromDto(MapToDto(b)) == b
    ensures MapToDto(FromDto(d)) == d
  {
  }

  /** A booking created from a request with an explicit status is the
      booking the request was made from. */
  lemma CreateRoundTrip(b: Booking, available: bool)
    ensures MapCreateToBooking(ToCreateDto(b), ItemRef(b.itemId, available, b.ownerId), b.bookerId) == b
  {
  }

  /** A request without status always produces a WAITING booking. */
  lemma NullStatusIsWaiting(dto: BookingCreateDto, item: ItemRef, bookerId: int)
    requires dto.status.None?
    ensures MapCreateToBooking(dto, item, bookerId).status == WAITING
  {
  }

  /** Mapping a list and mapping back yields the list. */
  lemma {:induction false} DtosRoundTrip(bs: seq<Booking>)
    ensures MapSeq(MapToDtos(bs), FromDto) == bs
  {
    var ds := MapToDtos(bs);
    var back := MapSeq(ds, FromDto);
    forall k | 0 <= k < |bs| ensures back[k] == bs[k] {
      DtoRoundTrip(bs[k], ds[k]);
    }
  }
}
