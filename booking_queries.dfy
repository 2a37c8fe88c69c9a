/** The queries of the booking repository, as filter-and-sort functions
    over the booking table. The table is the sequence of rows in insertion
    order; "ORDER BY startBooking DESC" is a stable sort on the start
    instant, so rows with equal starts keep their table order.

    The derived query methods come in booker/owner pairs that differ only
    in the id they select on; `Party` names the side. */
module BookingQueries {
  import opened Common
  import opened Sequences
  import opened Bookings

  /** Which id of a booking a query selects on: the booker's
      ("BookingUserId") or the item owner's ("ItemOwnerUserId"). */
  datatype Party = Booker | Owner

  predicate Involves(b: Booking, party: Party, userId: int)
  {
    match party
    case Booker => b.bookerId == userId
    case Owner => b.ownerId == userId
  }

  /** The four temporal tests, all against the same instant `now`. */
  predicate IsCurrent(b: Booking, now: Instant) { b.start <= now && b.end > now }
  predicate IsPast(b: Booking, now: Instant) { b.end < now }
  predicate IsFuture(b: Booking, now: Instant) { b.start > now }

  /** The rows satisfying `p`, latest start first. */
  function Select(table: seq<Booking>, p: Booking -> bool): (r: seq<Booking>)
    ensures SortedDesc(r, StartOf)
    ensures multiset(r) == multiset(Filter(table, p))
  {
    SortDesc(Filter(table, p), StartOf)
  }

  /** A sorted selection holds exactly the rows that satisfy the condition. */
  lemma SelectExact(table: seq<Booking>, p: Booking -> bool, b: Booking)
    ensures b in Select(table, p) <==> b in table && p(b)
  {
    var f := Filter(table, p);
    assert b in Select(table, p) <==> b in multiset(Select(table, p));
    assert b in f <==> b in multiset(f);
    if b in table && p(b) {
      var k :| 0 <= k < |table| && table[k] == b;
    }
    if b in f {
      var k :| 0 <= k < |f| && f[k] == b;
    }
  }

  /** findAllByBookingUserIdOrderByStartBookingDesc and
      findAllByItemOwnerUserIdOrderByStartBookingDesc (filter ALL). */
  function AllOf(table: seq<Booking>, party: Party, userId: int): (r: seq<Booking>)
    ensures SortedDesc(r, StartOf)
    ensures forall b :: b in r <==> b in table && Involves(b, party, userId)
  {
    var r := Select(table, (b: Booking) => Involves(b, party, userId));
    forall b ensures b in r <==> b in table && Involves(b, party, userId) {
      SelectExact(table, (b: Booking) => Involves(b, party, userId), b);
    }
    r
  }

  /** findAllByBookerIdAndCurrentBookings and
      findAllByItemUserIdAndCurrentBookings (filter CURRENT):
      start <= now < end. */
  function CurrentOf(table: seq<Booking>, party: Party, userId: int, now: Instant): (r: seq<Booking>)
    ensures SortedDesc(r, StartOf)
    ensures forall b :: b in r <==> b in table && Involves(b, party, userId) && IsCurrent(b, now)
  {
    var p := (b: Booking) => Involves(b, party, userId) && IsCurrent(b, now);
    var r := Select(table, p);
    forall b ensures b in r <==> b in table && p(b) {
      SelectExact(table, p, b);
    }
    r
  }

  /** ...AndEndBookingIsBeforeOrderByStartBookingDesc (filter PAST):
      end strictly before now. */
  function PastOf(table: seq<Booking>, party: Party, userId: int, now: Instant): (r: seq<Booking>)
    ensures SortedDesc(r, StartOf)
    ensures forall b :: b in r <==> b in table && Involves(b, party, userId) && IsPast(b, now)
  {
    var p := (b: Booking) => Involves(b, party, userId) && IsPast(b, now);
    var r := Select(table, p);
    forall b ensures b in r <==> b in table && p(b) {
      SelectExact(table, p, b);
    }
    r
  }

  /** ...AndStartBookingIsAfterOrderByStartBookingDesc (filter FUTURE):
      start strictly after now. */
  function FutureOf(table: seq<Booking>, party: Party, userId: int, now: Instant): (r: seq<Booking>)
    ensures SortedDesc(r, StartOf)
    ensures forall b :: b in r <==> b in table && Involves(b, party, userId) && IsFuture(b, now)
  {
    var p := (b: Booking) => Involves(b, party, userId) && IsFuture(b, now);
    var r := Select(table, p);
    forall b ensures b in r <==> b in table && p(b) {
      SelectExact(table, p, b);
    }
    r
  }

  /** ...AndBookingStatusOrderByStartBookingDesc (filters WAITING and
      REJECTED): exactly the given status. */
  function WithStatusOf(table: seq<Booking>, party: Party, userId: int, status: BookingStatus): (r: seq<Booking>)
    ensures SortedDesc(r, StartOf)
    ensures forall b :: b in r <==> b in table && Involves(b, party, userId) && b.status == status
  {
    var p := (b: Booking) => Involves(b, party, userId) && b.status == status;
    var r := Select(table, p);
    forall b ensures b in r <==> b in table && p(b) {
      SelectExact(table, p, b);
    }
    r
  }

  /** The interval test of findAllBookingsWithOverlappingDateRange:
      closed intervals, so bookings that only touch at an end point
      overlap. */
  predicate Overlaps(b: Booking, start: Instant, end: Instant)
  {
    start <= b.end && end >= b.start
  }

  /** findAllBookingsWithOverlappingDateRange: the APPROVED rows of the
      item whose interval meets [start, end]. Unordered: table order. */
  function OverlappingBookings(table: seq<Booking>, itemId: int, start: Instant, end: Instant): (r: seq<Booking>)
    ensures forall b :: b in r <==> b in table && b.status == APPROVED && b.itemId == itemId && Overlaps(b, start, end)
  {
    var p := (b: Booking) => b.status == APPROVED && b.itemId == itemId && Overlaps(b, start, end);
    var r := Filter(table, p);
    forall b | b in table && p(b) ensures b in r {
      var k :| 0 <= k < |table| && table[k] == b;
    }
    r
  }

  /** findAllByBookingUserIdAndItemIdAndBookingStatusAndEndBookingIsBefore:
      the booker's rows on the item with the status that ended strictly
      before `time`. Unordered: table order. */
  function FinishedBookingsOf(table: seq<Booking>, bookerId: int, itemId: int, status: BookingStatus, time: Instant): (r: seq<Booking>)
    ensures forall b :: b in r <==> b in table && b.bookerId == bookerId && b.itemId == itemId && b.status == status && b.end < time
  {
    var p := (b: Booking) => b.bookerId == bookerId && b.itemId == itemId && b.status == status && b.end < time;
    var r := Filter(table, p);
    forall b | b in table && p(b) ensures b in r {
      var k :| 0 <= k < |table| && table[k] == b;
    }
    r
  }

  // ---------------------------------------------------------------------------
  // Last and next booking (inner join of two aliases of the table)

  /** Ends of the item's APPROVED rows that ended at or before now. */
  function PastEnds(table: seq<Booking>, itemId: int, now: Instant): seq<Instant>
  {
    MapSeq(Filter(table, (b: Booking) => b.itemId == itemId && b.status == APPROVED && b.end <= now), (b: Booking) => b.end)
  }

  /** Starts of the item's APPROVED rows that start at or after now. */
  function FutureStarts(table: seq<Booking>, itemId: int, now: Instant): seq<Instant>
  {
    MapSeq(Filter(table, (b: Booking) => b.itemId == itemId && b.status == APPROVED && b.start >= now), (b: Booking) => b.start)
  }

  /** findBookingDates: MAX(b1.end) over APPROVED rows ending at or before
      now and MIN(b2.start) over APPROVED rows starting at or after now.
      Because the two aliases are inner-joined, there is a row only when
      both kinds of booking exist; otherwise the query gives null. */
  function BookingDatesOf(table: seq<Booking>, itemId: int, now: Instant): (r: Option<BookingDates>)
    ensures r.Some? ==> r.value.itemId == itemId
  {
    var ends := PastEnds(table, itemId, now);
    var starts := FutureStarts(table, itemId, now);
    if ends == [] || starts == [] then None
    else Some(BookingDates(itemId, Some(Max(ends)), Some(Min(starts))))
  }

  /** A past end of an APPROVED row of the item. */
  predicate IsPastEnd(table: seq<Booking>, itemId: int, now: Instant, t: Instant)
  {
    exists b :: b in table && b.itemId == itemId && b.status == APPROVED && b.end <= now && b.end == t
  }

  /** A future start of an APPROVED row of the item. */
  predicate IsFutureStart(table: seq<Booking>, itemId: int, now: Instant, t: Instant)
  {
    exists b :: b in table && b.itemId == itemId && b.status == APPROVED && b.start >= now && b.start == t
  }

  lemma PastEndsExact(table: seq<Booking>, itemId: int, now: Instant, t: Instant)
    ensures t in PastEnds(table, itemId, now) <==> IsPastEnd(table, itemId, now, t)
  {
    var p := (b: Booking) => b.itemId == itemId && b.status == APPROVED && b.end <= now;
    var f := Filter(table, p);
    if t in PastEnds(table, itemId, now) {
      var k :| 0 <= k < |f| && f[k].end == t;
      assert f[k] in table;
    }
    if IsPastEnd(table, itemId, now, t) {
      var b :| b in table && p(b) && b.end == t;
      var k :| 0 <= k < |table| && table[k] == b;
      assert b in f;
      var j :| 0 <= j < |f| && f[j] == b;
      assert PastEnds(table, itemId, now)[j] == t;
    }
  }

  lemma FutureStartsExact(table: seq<Booking>, itemId: int, now: Instant, t: Instant)
    ensures t in FutureStarts(table, itemId, now) <==> IsFutureStart(table, itemId, now, t)
  {
    var p := (b: Booking) => b.itemId == itemId && b.status == APPROVED && b.start >= now;
    var f := Filter(table, p);
    if t in FutureStarts(table, itemId, now) {
      var k :| 0 <= k < |f| && f[k].start == t;
      assert f[k] in table;
    }
    if IsFutureStart(table, itemId, now, t) {
      var b :| b in table && p(b) && b.start == t;
      var k :| 0 <= k < |table| && table[k] == b;
      assert b in f;
      var j :| 0 <= j < |f| && f[j] == b;
      assert FutureStarts(table, itemId, now)[j] == t;
    }
  }

  /** findBookingDates gives a row exactly when the item has both an
      APPROVED booking ended by now and one starting from now; the row's
      previous instant is the latest such end and its next instant the
      earliest such start. */
  lemma BookingDatesMeaning(table: seq<Booking>, itemId: int, now: Instant)
    ensures BookingDatesOf(table, itemId, now).Some? <==>
      (exists t :: IsPastEnd(table, itemId, now, t)) && (exists t :: IsFutureStart(table, itemId, now, t))
    ensures BookingDatesOf(table, itemId, now).Some? ==>
      var d := BookingDatesOf(table, itemId, now).value;
      && d.itemId == itemId && d.previous.Some? && d.next.Some?
      && IsPastEnd(table, itemId, now, d.previous.value)
      && (forall t :: IsPastEnd(table, itemId, now, t) ==> t <= d.previous.value)
      && IsFutureStart(table, itemId, now, d.next.value)
      && (forall t :: IsFutureStart(table, itemId, now, t) ==> d.next.value <= t)
  {
    var ends := PastEnds(table, itemId, now);
    var starts := FutureStarts(table, itemId, now);
    forall t ensures t in ends <==> IsPastEnd(table, itemId, now, t) {
      PastEndsExact(table, itemId, now, t);
    }
    forall t ensures t in starts <==> IsFutureStart(table, itemId, now, t) {
      FutureStartsExact(table, itemId, now, t);
    }
    if ends != [] && starts != [] {
      assert ends[0] in ends;
      assert starts[0] in starts;
      forall t | IsPastEnd(table, itemId, now, t) ensures t <= Max(ends) {
        var k :| 0 <= k < |ends| && ends[k] == t;
      }
      forall t | IsFutureStart(table, itemId, now, t) ensures Min(starts) <= t {
        var k :| 0 <= k < |starts| && starts[k] == t;
      }
    }
  }

  /** The items of the owner's bookings, each once, in the order of their
      first booking in the table (the groups of GROUP BY item). */
  function OwnerItemIds(table: seq<Booking>, ownerId: int): (r: seq<int>)
    ensures forall i, j :: 0 <= i < j < |r| ==> r[i] != r[j]
    ensures forall id :: id in r <==> exists b :: b in table && b.ownerId == ownerId && b.itemId == id
  {
    var owned := Filter(table, (b: Booking) => b.ownerId == ownerId);
    var ids := MapSeq(owned, (b: Booking) => b.itemId);
    forall id ensures id in ids <==> exists b :: b in table && b.ownerId == ownerId && b.itemId == id {
      if id in ids {
        var k :| 0 <= k < |ids| && ids[k] == id;
        assert owned[k] in table;
      }
      if exists b :: b in table && b.ownerId == ownerId && b.itemId == id {
        var b :| b in table && b.ownerId == ownerId && b.itemId == id;
        var j :| 0 <= j < |table| && table[j] == b;
        var k :| 0 <= k < |owned| && owned[k] == b;
        assert ids[k] == id;
      }
    }
    Distinct(ids)
  }

  /** The rows `rowOf` gives for the listed items, skipping the items it
      gives none for, in list order. */
  function RowsOf(ids: seq<int>, rowOf: int -> Option<BookingDates>): (r: seq<BookingDates>)
    requires forall i, j :: 0 <= i < j < |ids| ==> ids[i] != ids[j]
    requires forall id :: rowOf(id).Some? ==> rowOf(id).value.itemId == id
    ensures forall i, j :: 0 <= i < j < |r| ==> r[i].itemId != r[j].itemId
    ensures forall k :: 0 <= k < |r| ==> r[k].itemId in ids && rowOf(r[k].itemId) == Some(r[k])
    ensures forall id :: id in ids && rowOf(id).Some? ==> rowOf(id).value in r
  {
    if ids == [] then []
    else
      var rest := RowsOf(ids[1..], rowOf);
      assert forall id :: id in ids ==> id == ids[0] || id in ids[1..];
      match rowOf(ids[0])
      case None => rest
      case Some(d) =>
        assert forall k :: 0 <= k < |rest| ==> rest[k].itemId in ids[1..] && rest[k].itemId != d.itemId;
        [d] + rest
  }

  /** findAllBookingsDatesOfUser: the same pair for every item of the
      owner that has both kinds of APPROVED booking, one row per item. */
  function OwnerBookingDates(table: seq<Booking>, ownerId: int, now: Instant): (r: seq<BookingDates>)
    ensures forall i, j :: 0 <= i < j < |r| ==> r[i].itemId != r[j].itemId
    ensures forall k :: 0 <= k < |r| ==> BookingDatesOf(table, r[k].itemId, now) == Some(r[k])
    ensures forall k :: 0 <= k < |r| ==> exists b :: b in table && b.ownerId == ownerId && b.itemId == r[k].itemId
    ensures forall b :: b in table && b.ownerId == ownerId && BookingDatesOf(table, b.itemId, now).Some? ==>
      BookingDatesOf(table, b.itemId, now).value in r
  {
    var ids := OwnerItemIds(table, ownerId);
    var rowOf := (id: int) => BookingDatesOf(table, id, now);
    var r := RowsOf(ids, rowOf);
    OwnerRowsAreBookingDates(table, ownerId, now, ids, rowOf, r);
    r
  }

  /** The rows collected for the owner's items with the single-item query
      are those items' rows, and every item of the owner that has a row
      has it among them. */
  lemma OwnerRowsAreBookingDates(table: seq<Booking>, ownerId: int, now: Instant, ids: seq<int>,
                                 rowOf: int -> Option<BookingDates>, r: seq<BookingDates>)
    requires forall id :: id in ids <==> exists b :: b in table && b.ownerId == ownerId && b.itemId == id
    requires forall id :: rowOf(id) == BookingDatesOf(table, id, now)
    requires forall k :: 0 <= k < |r| ==> r[k].itemId in ids && rowOf(r[k].itemId) == Some(r[k])
    requires forall id :: id in ids && rowOf(id).Some? ==> rowOf(id).value in r
    ensures forall k :: 0 <= k < |r| ==> BookingDatesOf(table, r[k].itemId, now) == Some(r[k])
    ensures forall k :: 0 <= k < |r| ==> exists b :: b in table && b.ownerId == ownerId && b.itemId == r[k].itemId
    ensures forall b :: b in table && b.ownerId == ownerId && BookingDatesOf(table, b.itemId, now).Some? ==>
      BookingDatesOf(table, b.itemId, now).value in r
  {
    forall b | b in table && b.ownerId == ownerId && BookingDatesOf(table, b.itemId, now).Some?
      ensures BookingDatesOf(table, b.itemId, now).value in r
    {
      assert b.itemId in ids;
      assert rowOf(b.itemId) == BookingDatesOf(table, b.itemId, now);
    }
  }

  // ---------------------------------------------------------------------------
  // Properties of the temporal filters

  /** For an interval with start <= end, PAST, CURRENT and FUTURE are
      pairwise exclusive, and a booking ending exactly at `now` is in none
      of them; otherwise it is in exactly one. */
  lemma TemporalFiltersPartition(b: Booking, now: Instant)
    requires b.start <= b.end
    ensures !(IsPast(b, now) && IsCurrent(b, now))
    ensures !(IsPast(b, now) && IsFuture(b, now))
    ensures !(IsCurrent(b, now) && IsFuture(b, now))
    ensures b.end == now <==> !IsPast(b, now) && !IsCurrent(b, now) && !IsFuture(b, now)
  {
  }

  /** Nothing rejects an interval whose end comes before its start, and
      such a booking can be PAST and FUTURE at once. */
  lemma InvertedIntervalIsPastAndFuture()
    ensures var b := Booking(1, 10, 5, 1, 1, 2, WAITING);
      IsPast(b, 7) && IsFuture(b, 7)
  {
  }

  /** Closed intervals: a request that starts exactly when an APPROVED
      booking of the item ends is reported as overlapping. */
  lemma TouchingIntervalsOverlap(b: Booking, end: Instant)
    requires b.status == APPROVED && b.start <= b.end
    requires end >= b.end
    ensures b in OverlappingBookings([b], b.itemId, b.end, end)
  {
  }

  /** The overlap test is symmetric: if a booking's interval meets
      [start, end], then [start, end] meets the booking's interval. */
  lemma OverlapSymmetric(b: Booking, c: Booking)
    ensures Overlaps(b, c.start, c.end) <==> Overlaps(c, b.start, b.end)
  {
  }
}
