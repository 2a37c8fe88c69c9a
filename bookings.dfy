/** The booking record and the catalog projection the booking engine
    reads. A booking keeps the ids of its item, of the item's owner and of
    its booker, in place of the referenced entities. */
module Bookings {
  import opened Common

  datatype BookingStatus = WAITING | APPROVED | REJECTED | CANCELED

  datatype Booking = Booking(
    id: int,
    start: Instant,
    end: Instant,
    itemId: int,
    ownerId: int,
    bookerId: int,
    status: BookingStatus)

  /** What the booking engine needs of an item from the catalog. */
  datatype ItemRef = ItemRef(id: int, available: bool, ownerId: int)

  /** The last and next booking instants of an item; either may be null. */
  datatype BookingDates = BookingDates(itemId: int, previous: Option<Instant>, next: Option<Instant>)

  /** The sort key of every "ORDER BY startBooking DESC". */
  function StartOf(b: Booking): Instant { b.start }
}
