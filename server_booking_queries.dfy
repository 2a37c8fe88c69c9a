/** The server's booking repository. Its list, overlap and comment
    eligibility queries select the same rows as the ones in
    BookingQueries; what differs are the two "booking dates" queries,
    which left-join the table with itself, so that an item with bookings
    always gets a row and a missing aggregate is null. */
module ServerBookingQueries {
  import opened Common
  import opened Sequences
  import opened Bookings
  import opened BookingQueries

  /** MAX over a possibly empty column: null when there is no row. */
  function MaxOrNull(s: seq<int>): (r: Option<int>)
    ensures r.None? <==> s == []
    ensures r.Some? ==> r.value in s && forall k :: 0 <= k < |s| ==> s[k] <= r.value
  {
    if s == [] then None else Some(Max(s))
  }

  /** MIN over a possibly empty column: null when there is no row. */
  function MinOrNull(s: seq<int>): (r: Option<int>)
    ensures r.None? <==> s == []
    ensures r.Some? ==> r.value in s && forall k :: 0 <= k < |s| ==> r.value <= s[k]
  {
    if s == [] then None else Some(Min(s))
  }

  /** The item has at least one row in the table, whatever its status. */
  predicate HasBookings(table: seq<Booking>, itemId: int)
  {
    exists b :: b in table && b.itemId == itemId
  }

  /** findBookingDates as written: the constructor receives
      MAX(b2.startBooking) over APPROVED rows starting at or after now as
      the previous booking, and MIN(b3.endBooking) over APPROVED rows
      ending at or before now as the next one. */
  function ItemBookingDatesAsWritten(table: seq<Booking>, itemId: int, now: Instant): (r: Option<BookingDates>)
    ensures r.Some? <==> HasBookings(table, itemId)
    ensures r.Some? ==> r.value.itemId == itemId
  {
    if HasBookings(table, itemId)
    then Some(BookingDates(itemId, MaxOrNull(FutureStarts(table, itemId, now)), MinOrNull(PastEnds(table, itemId, now))))
    else None
  }

  /** One row of findAllBookingsDatesOfUser: previous = MAX(b3.endBooking)
      over APPROVED rows ending at or before now, next = MIN(b2.startBooking)
      over APPROVED rows starting at or after now; the row is there as soon
      as the item has any booking. */
  function DatesRow(table: seq<Booking>, itemId: int, now: Instant): BookingDates
  {
    BookingDates(itemId, MaxOrNull(PastEnds(table, itemId, now)), MinOrNull(FutureStarts(table, itemId, now)))
  }

  /** findBookingDates with the aggregates in the order the owner-level
      query uses: the last finished booking's end and the next booking's
      start. */
  function ItemBookingDates(table: seq<Booking>, itemId: int, now: Instant): (r: Option<BookingDates>)
    ensures r.Some? <==> HasBookings(table, itemId)
    ensures r.Some? ==> r.value.itemId == itemId
  {
    if HasBookings(table, itemId) then Some(DatesRow(table, itemId, now)) else None
  }

  /** findAllBookingsDatesOfUser: one row per item of the owner that has
      any booking (GROUP BY item over the left join), each row what the
      single-item query gives for that item. */
  function OwnerBookingDatesRows(table: seq<Booking>, ownerId: int, now: Instant): (r: seq<BookingDates>)
    ensures forall i, j :: 0 <= i < j < |r| ==> r[i].itemId != r[j].itemId
    ensures forall k :: 0 <= k < |r| ==> r[k] == DatesRow(table, r[k].itemId, now)
    ensures forall k :: 0 <= k < |r| ==> exists b :: b in table && b.ownerId == ownerId && b.itemId == r[k].itemId
    ensures forall b :: b in table && b.ownerId == ownerId ==> DatesRow(table, b.itemId, now) in r
  {
    var ids := OwnerItemIds(table, ownerId);
    var rowOf := (id: int) => ItemBookingDates(table, id, now);
    var r := RowsOf(ids, rowOf);
    OwnerRowsAreDatesRows(table, ownerId, now, ids, rowOf, r);
    r
  }

  /** The rows collected for the owner's items with the single-item query
      are the items' dates rows, and every item of the owner with a
      booking has its row among them. */
  lemma OwnerRowsAreDatesRows(table: seq<Booking>, ownerId: int, now: Instant, ids: seq<int>,
                              rowOf: int -> Option<BookingDates>, r: seq<BookingDates>)
    requires forall id :: id in ids <==> exists b :: b in table && b.ownerId == ownerId && b.itemId == id
    requires forall id :: rowOf(id) == ItemBookingDates(table, id, now)
    requires forall k :: 0 <= k < |r| ==> r[k].itemId in ids && rowOf(r[k].itemId) == Some(r[k])
    requires forall id :: id in ids && rowOf(id).Some? ==> rowOf(id).value in r
    ensures forall k :: 0 <= k < |r| ==> r[k] == DatesRow(table, r[k].itemId, now)
    ensures forall b :: b in table && b.ownerId == ownerId ==> DatesRow(table, b.itemId, now) in r
  {
    forall k | 0 <= k < |r| ensures r[k] == DatesRow(table, r[k].itemId, now) {
      assert rowOf(r[k].itemId) == Some(r[k]);
    }
    forall b | b in table && b.ownerId == ownerId ensures DatesRow(table, b.itemId, now) in r {
      assert b.itemId in ids;
      assert HasBookings(table, b.itemId);
      assert rowOf(b.itemId) == Some(DatesRow(table, b.itemId, now));
    }
  }

  /** Meaning of a row: the previous booking is an APPROVED end at or
      before now and no such end is later; the next booking is an APPROVED
      start at or after now and no such start is earlier; each is null
      exactly when there is no such booking. So previous <= now <= next. */
  lemma {:induction false} DatesRowMeaning(table: seq<Booking>, itemId: int, now: Instant)
    ensures var d := DatesRow(table, itemId, now);
      && (d.previous.None? <==> forall t :: !IsPastEnd(table, itemId, now, t))
      && (d.previous.Some? ==> IsPastEnd(table, itemId, now, d.previous.value) && d.previous.value <= now)
      && (d.previous.Some? ==> forall t :: IsPastEnd(table, itemId, now, t) ==> t <= d.previous.value)
      && (d.next.None? <==> forall t :: !IsFutureStart(table, itemId, now, t))
      && (d.next.Some? ==> IsFutureStart(table, itemId, now, d.next.value) && now <= d.next.value)
      && (d.next.Some? ==> forall t :: IsFutureStart(table, itemId, now, t) ==> d.next.value <= t)
  {
    var ends := PastEnds(table, itemId, now);
    var starts := FutureStarts(table, itemId, now);
    forall t ensures t in ends <==> IsPastEnd(table, itemId, now, t) {
      PastEndsExact(table, itemId, now, t);
    }
    forall t ensures t in starts <==> IsFutureStart(table, itemId, now, t) {
      FutureStartsExact(table, itemId, now, t);
    }
    forall t | IsPastEnd(table, itemId, now, t) ensures t in ends && t <= now {
      var b :| b in table && b.itemId == itemId && b.status == APPROVED && b.end <= now && b.end == t;
    }
    forall t | IsFutureStart(table, itemId, now, t) ensures t in starts && now <= t {
      var b :| b in table && b.itemId == itemId && b.status == APPROVED && b.start >= now && b.start == t;
    }
    if ends != [] {
      assert ends[0] in ends;
      forall t | IsPastEnd(table, itemId, now, t) ensures t <= Max(ends) {
        var k :| 0 <= k < |ends| && ends[k] == t;
      }
    }
    if starts != [] {
      assert starts[0] in starts;
      forall t | IsFutureStart(table, itemId, now, t) ensures Min(starts) <= t {
        var k :| 0 <= k < |starts| && starts[k] == t;
      }
    }
  }

  /** With the aggregates in the right places the single-item query
      reports previous <= now <= next. */
  lemma ItemBookingDatesOrdered(table: seq<Booking>, itemId: int, now: Instant)
    ensures var r := ItemBookingDates(table, itemId, now);
      r.Some? ==>
        && (r.value.previous.Some? ==> r.value.previous.value <= now)
        && (r.value.next.Some? ==> now <= r.value.next.value)
  {
    DatesRowMeaning(table, itemId, now);
  }

  /** As written, the single-item query reports as "previous" a booking
      that has not started yet, and reports no "next" booking although one
      is coming: one APPROVED booking from 10 to 20, asked at 5. */
  lemma ItemBookingDatesAsWrittenSwapsFields()
    ensures var table := [Booking(1, 10, 20, 7, 2, 3, APPROVED)];
      var r := ItemBookingDatesAsWritten(table, 7, 5);
      && r == Some(BookingDates(7, Some(10), None))
      && r.value.previous.value > 5
      && ItemBookingDates(table, 7, 5) == Some(BookingDates(7, None, Some(10)))
  {
    var table := [Booking(1, 10, 20, 7, 2, 3, APPROVED)];
    assert table[0] in table;
    assert Filter(table, (b: Booking) => b.itemId == 7 && b.status == APPROVED && b.start >= 5) == table;
    assert Filter(table, (b: Booking) => b.itemId == 7 && b.status == APPROVED && b.end <= 5) == [];
  }
}
