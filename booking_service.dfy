/** The booking service: creates bookings after a fixed chain of checks,
    lets the item owner approve or reject them, authorises reads, and
    routes a list filter to one of the repository queries through two
    strategy maps (one for bookers, one for owners).

    The booking table is a field of the service; the user and item
    repositories are passed in as the set of known user ids and the map
    from item id to what the service reads of the item. The clock is the
    parameter `now`. */
module BookingEngine {
  import opened Common
  import opened Sequences
  import opened Bookings
  import opened BookingQueries
  import opened BookingMapper
  import opened RequestStates

  // ---------------------------------------------------------------------------
  // Strategies

  /** The query a strategy runs. */
  datatype Filter = AllRows | CurrentRows | PastRows | FutureRows | StatusRows(status: BookingStatus)

  /** A strategy lambda of the maps: which side it selects on and which
      query it runs with the user id and `now`. */
  datatype Strategy = Strategy(party: Party, filter: Filter)

  function Run(s: Strategy, table: seq<Booking>, userId: int, now: Instant): seq<Booking>
  {
    match s.filter
    case AllRows => AllOf(table, s.party, userId)
    case CurrentRows => CurrentOf(table, s.party, userId, now)
    case PastRows => PastOf(table, s.party, userId, now)
    case FutureRows => FutureOf(table, s.party, userId, now)
    case StatusRows(st) => WithStatusOf(table, s.party, userId, st)
  }

  /** The contents of a strategy map once its initialiser has run. */
  function StrategyTable(party: Party): map<BookingRequestState, Strategy>
  {
    map[
      ALL := Strategy(party, AllRows),
      CURRENT := Strategy(party, CurrentRows),
      PAST := Strategy(party, PastRows),
      FUTURE := Strategy(party, FutureRows),
      BookingRequestState.WAITING := Strategy(party, StatusRows(BookingStatus.WAITING)),
      BookingRequestState.REJECTED := Strategy(party, StatusRows(BookingStatus.REJECTED))]
  }

  /** What a filter value asks for, independently of how it is run. */
  predicate Matches(state: BookingRequestState, b: Booking, now: Instant)
  {
    match state
    case ALL => true
    case CURRENT => b.start <= now < b.end
    case PAST => b.end < now
    case FUTURE => b.start > now
    case WAITING => b.status == BookingStatus.WAITING
    case REJECTED => b.status == BookingStatus.REJECTED
  }

  /** Every filter value has a strategy, and the strategy returns exactly
      the user's bookings that match the filter, latest start first. */
  lemma StrategyMeaning(party: Party, state: BookingRequestState, table: seq<Booking>, userId: int, now: Instant)
    ensures state in StrategyTable(party)
    ensures SortedDesc(Run(StrategyTable(party)[state], table, userId, now), StartOf)
    ensures forall b :: b in Run(StrategyTable(party)[state], table, userId, now) <==>
      b in table && Involves(b, party, userId) && Matches(state, b, now)
  {
    var t := StrategyTable(party);
    match state
    case ALL => assert t[state] == Strategy(party, AllRows);
    case CURRENT => assert t[state] == Strategy(party, CurrentRows);
    case PAST => assert t[state] == Strategy(party, PastRows);
    case FUTURE => assert t[state] == Strategy(party, FutureRows);
    case WAITING => assert t[state] == Strategy(party, StatusRows(BookingStatus.WAITING));
    case REJECTED => assert t[state] == Strategy(party, StatusRows(BookingStatus.REJECTED));
  }

  // ---------------------------------------------------------------------------
  // The invariant kept by create and approve

  /** Two APPROVED bookings of the same item whose closed intervals meet. */
  predicate Clash(a: Booking, b: Booking)
  {
    a.status == APPROVED && b.status == APPROVED && a.itemId == b.itemId && Overlaps(a, b.start, b.end)
  }

  /** No two APPROVED bookings of an item overlap. */
  predicate NoApprovedOverlap(table: seq<Booking>)
  {
    forall i, j :: 0 <= i < j < |table| ==> !Clash(table[i], table[j])
  }

  predicate UniqueIds(table: seq<Booking>)
  {
    forall i, j :: 0 <= i < j < |table| ==> table[i].id != table[j].id
  }

  /** Appending a booking that the overlap query does not object to keeps
      APPROVED bookings apart. */
  lemma {:induction false} AppendKeepsNoOverlap(table: seq<Booking>, b: Booking)
    requires NoApprovedOverlap(table)
    requires OverlappingBookings(table, b.itemId, b.start, b.end) == []
    ensures NoApprovedOverlap(table + [b])
  {
    var t := table + [b];
    forall i, j | 0 <= i < j < |t| ensures !Clash(t[i], t[j]) {
      if j == |table| {
        var x := t[i];
        assert x in table;
        assert Clash(x, b) ==> x in OverlappingBookings(table, b.itemId, b.start, b.end);
      }
    }
  }

  /** Approving a booking that the overlap query does not object to keeps
      APPROVED bookings apart. */
  lemma {:induction false} ApproveKeepsNoOverlap(table: seq<Booking>, k: nat)
    requires NoApprovedOverlap(table)
    requires k < |table|
    requires OverlappingBookings(table, table[k].itemId, table[k].start, table[k].end) == []
    ensures NoApprovedOverlap(table[k := table[k].(status := APPROVED)])
  {
    var b := table[k];
    var t := table[k := b.(status := APPROVED)];
    forall i, j | 0 <= i < j < |t| ensures !Clash(t[i], t[j]) {
      if i == k || j == k {
        var o := if i == k then j else i;
        var x := table[o];
        assert x in table;
        OverlapSymmetric(x, b);
        assert Clash(t[i], t[j]) ==> x in OverlappingBookings(table, b.itemId, b.start, b.end);
      } else {
        assert t[i] == table[i] && t[j] == table[j];
      }
    }
  }

  /** Taking a status other than APPROVED never creates a clash. */
  lemma {:induction false} UnapproveKeepsNoOverlap(table: seq<Booking>, k: nat, s: BookingStatus)
    requires NoApprovedOverlap(table)
    requires k < |table| && s != APPROVED
    ensures NoApprovedOverlap(table[k := table[k].(status := s)])
  {
    var t := table[k := table[k].(status := s)];
    forall i, j | 0 <= i < j < |t| ensures !Clash(t[i], t[j]) {
      if i != k && j != k {
        assert t[i] == table[i] && t[j] == table[j];
      }
    }
  }

  // ---------------------------------------------------------------------------
  // Decisions

  /** findById on the table: position of the row with that id. */
  function IndexOfId(table: seq<Booking>, id: int): (r: Option<nat>)
    ensures r.Some? ==> r.value < |table| && table[r.value].id == id
    ensures r.None? ==> forall k :: 0 <= k < |table| ==> table[k].id != id
  {
    IndexOfKey(table, (b: Booking) => b.id, id)
  }

  /** The checks of create, in their order: equal dates (before any
      lookup), unknown booker, unknown item, unavailable item, an APPROVED
      booking of the item overlapping the requested dates. On success,
      the item the booking will refer to. */
  function CreateCheck(table: seq<Booking>, bookerId: int, dto: BookingCreateDto, users: set<int>, items: map<int, ItemRef>): (r: Result<ItemRef>)
    ensures dto.start == dto.end ==> r == Err(Validation)
    ensures dto.start != dto.end && bookerId !in users ==> r == Err(NotFound)
    ensures r.Ok? <==>
      && dto.start != dto.end && bookerId in users && dto.itemId in items
      && items[dto.itemId].available
      && OverlappingBookings(table, items[dto.itemId].id, dto.start, dto.end) == []
    ensures r.Ok? ==> r.value == items[dto.itemId]
    ensures r.Err? ==> r.error == Validation || r.error == NotFound
  {
    if dto.start == dto.end then Err(Validation)
    else if bookerId !in users then Err(NotFound)
    else if dto.itemId !in items then Err(NotFound)
    else if !items[dto.itemId].available then Err(Validation)
    else if OverlappingBookings(table, items[dto.itemId].id, dto.start, dto.end) != [] then Err(Validation)
    else Ok(items[dto.itemId])
  }

  /** updateBookingStatus for approved = false: the owner rejects, the
      booker cancels, anyone else is refused. */
  function RefusalStatus(b: Booking, userId: int): (r: Result<BookingStatus>)
    ensures r.Ok? ==> r.value == BookingStatus.REJECTED || r.value == CANCELED
    ensures b.ownerId == userId ==> r == Ok(BookingStatus.REJECTED)
    ensures r.Err? <==> b.ownerId != userId && b.bookerId != userId
  {
    if b.ownerId == userId then Ok(BookingStatus.REJECTED)
    else if b.bookerId == userId then Ok(CANCELED)
    else Err(Permission)
  }

  /** updateStatus on the table: the booking record after the update, or
      the error. */
  function UpdateStatusDecision(table: seq<Booking>, userId: int, bookingId: int, approved: bool): (r: Result<Booking>)
    ensures IndexOfId(table, bookingId).None? ==> r == Err(NotFound)
    ensures r.Ok? ==>
      && IndexOfId(table, bookingId).Some?
      && r.value == table[IndexOfId(table, bookingId).value].(status := r.value.status)
  {
    match IndexOfId(table, bookingId)
    case None => Err(NotFound)
    case Some(k) =>
      var b := table[k];
      if b.ownerId != userId then Err(Validation)
      else if approved then
        if OverlappingBookings(table, b.itemId, b.start, b.end) != [] then Err(Validation)
        else Ok(b.(status := APPROVED))
      else
        match RefusalStatus(b, userId)
        case Ok(s) => Ok(b.(status := s))
        case Err(e) => Err(e)
  }

  /** Only the item owner can change a booking, whatever the flag says; a
      successful approval yields APPROVED and a successful refusal
      REJECTED, so the booker's CANCELED branch is never reached. */
  lemma UpdateStatusOutcomes(table: seq<Booking>, userId: int, bookingId: int, approved: bool)
    ensures var r := UpdateStatusDecision(table, userId, bookingId, approved);
      && ((IndexOfId(table, bookingId).Some? && table[IndexOfId(table, bookingId).value].ownerId != userId)
          ==> r == Err(Validation))
      && (r.Ok? ==> table[IndexOfId(table, bookingId).value].ownerId == userId)
      && (r.Ok? ==> r.value.status == (if approved then APPROVED else BookingStatus.REJECTED))
      && (r.Ok? ==> r.value.status != CANCELED)
      && (r.Err? ==> r.error != Permission)
    ensures var r := UpdateStatusDecision(table, userId, bookingId, approved);
      IndexOfId(table, bookingId).Some? && table[IndexOfId(table, bookingId).value].ownerId == userId ==>
        var b := table[IndexOfId(table, bookingId).value];
        && (approved ==> (r.Ok? <==> OverlappingBookings(table, b.itemId, b.start, b.end) == []))
        && (approved && r.Ok? ==> r == Ok(b.(status := APPROVED)))
        && (approved && r.Err? ==> r == Err(Validation))
        && (!approved ==> r == Ok(b.(status := BookingStatus.REJECTED)))
  {
  }

  /** Approving an already APPROVED booking (start <= end) fails: the
      overlap query finds the booking itself. */
  lemma ReapprovalFails(table: seq<Booking>, userId: int, bookingId: int)
    requires IndexOfId(table, bookingId).Some?
    requires var b := table[IndexOfId(table, bookingId).value];
      b.status == APPROVED && b.start <= b.end && b.ownerId == userId
    ensures UpdateStatusDecision(table, userId, bookingId, true) == Err(Validation)
  {
    var b := table[IndexOfId(table, bookingId).value];
    assert b in table;
    assert b in OverlappingBookings(table, b.itemId, b.start, b.end);
  }

  /** The owner's approval succeeds exactly when no APPROVED booking of
      the item meets the booking's dates. */
  lemma ApprovalMeansNoOverlap(table: seq<Booking>, userId: int, bookingId: int)
    requires IndexOfId(table, bookingId).Some?
    requires table[IndexOfId(table, bookingId).value].ownerId == userId
    ensures var b := table[IndexOfId(table, bookingId).value];
      UpdateStatusDecision(table, userId, bookingId, true).Ok? <==>
        forall c :: c in table && c.status == APPROVED && c.itemId == b.itemId ==> !Overlaps(c, b.start, b.end)
  {
    var b := table[IndexOfId(table, bookingId).value];
    var found := OverlappingBookings(table, b.itemId, b.start, b.end);
    if found != [] {
      assert found[0] in found;
    }
  }

  // ---------------------------------------------------------------------------
  // The service

  class BookingService {
    /** The booking table, in insertion order. */
    var bookings: seq<Booking>
    /** The next identity value the database will hand out. */
    var nextId: int
    var forBooker: map<BookingRequestState, Strategy>
    var forOwner: map<BookingRequestState, Strategy>

    ghost predicate Valid()
      reads this
    {
      && nextId >= 1
      && (forall k :: 0 <= k < |bookings| ==> 1 <= bookings[k].id < nextId)
      && UniqueIds(bookings)
      && NoApprovedOverlap(bookings)
    }

    constructor ()
      ensures Valid()
      ensures bookings == [] && nextId == 1
      ensures forBooker == map[] && forOwner == map[]
    {
      bookings := [];
      nextId := 1;
      forBooker := map[];
      forOwner := map[];
    }

    /** initBookerStrategiesForBooker: one put per filter value. */
    method InitStrategiesForBooker()
      modifies this
      ensures forBooker == StrategyTable(Booker)
      ensures bookings == old(bookings) && nextId == old(nextId) && forOwner == old(forOwner)
    {
      forBooker := map[];
      forBooker := forBooker[ALL := Strategy(Booker, AllRows)];
      forBooker := forBooker[CURRENT := Strategy(Booker, CurrentRows)];
      forBooker := forBooker[PAST := Strategy(Booker, PastRows)];
      forBooker := forBooker[FUTURE := Strategy(Booker, FutureRows)];
      forBooker := forBooker[BookingRequestState.WAITING := Strategy(Booker, StatusRows(BookingStatus.WAITING))];
      forBooker := forBooker[BookingRequestState.REJECTED := Strategy(Booker, StatusRows(BookingStatus.REJECTED))];
    }

    /** initBookerStrategiesForOwner: one put per filter value. */
    method InitStrategiesForOwner()
      modifies this
      ensures forOwner == StrategyTable(Owner)
      ensures bookings == old(bookings) && nextId == old(nextId) && forBooker == old(forBooker)
    {
      forOwner := map[];
      forOwner := forOwner[ALL := Strategy(Owner, AllRows)];
      forOwner := forOwner[CURRENT := Strategy(Owner, CurrentRows)];
      forOwner := forOwner[PAST := Strategy(Owner, PastRows)];
      forOwner := forOwner[FUTURE := Strategy(Owner, FutureRows)];
      forOwner := forOwner[BookingRequestState.WAITING := Strategy(Owner, StatusRows(BookingStatus.WAITING))];
      forOwner := forOwner[BookingRequestState.REJECTED := Strategy(Owner, StatusRows(BookingStatus.REJECTED))];
    }

    /** create: on success exactly one booking is appended, under the next
        identity value; on any failure nothing changes. APPROVED bookings
        of an item stay pairwise apart. */
    method Create(bookerId: int, dto: BookingCreateDto, users: set<int>, items: map<int, ItemRef>) returns (r: Result<BookingDto>)
      requires Valid()
      modifies this
      ensures Valid()
      ensures forBooker == old(forBooker) && forOwner == old(forOwner)
      ensures var c := CreateCheck(old(bookings), bookerId, dto, users, items);
        c.Err? ==> r == Err(c.error) && bookings == old(bookings) && nextId == old(nextId)
      ensures var c := CreateCheck(old(bookings), bookerId, dto, users, items);
        c.Ok? ==>
          var b := MapCreateToBooking(dto, c.value, bookerId).(id := old(nextId));
          && bookings == old(bookings) + [b]
          && nextId == old(nextId) + 1
          && r == Ok(MapToDto(b))
    {
      var c := CreateCheck(bookings, bookerId, dto, users, items);
      if c.Err? {
        return Err(c.error);
      }
      var item := c.value;
      var b := MapCreateToBooking(dto, item, bookerId).(id := nextId);
      AppendKeepsNoOverlap(bookings, b);
      bookings := bookings + [b];
      nextId := nextId + 1;
      r := Ok(MapToDto(b));
    }

    /** updateStatus: on success only the status of that one booking
        changes; on failure nothing changes. APPROVED bookings of an item
        stay pairwise apart. */
    method UpdateStatus(userId: int, bookingId: int, approved: bool) returns (r: Result<BookingDto>)
      requires Valid()
      modifies this
      ensures Valid()
      ensures nextId == old(nextId) && forBooker == old(forBooker) && forOwner == old(forOwner)
      ensures var d := UpdateStatusDecision(old(bookings), userId, bookingId, approved);
        d.Err? ==> r == Err(d.error) && bookings == old(bookings)
      ensures var d := UpdateStatusDecision(old(bookings), userId, bookingId, approved);
        d.Ok? ==>
          && bookings == old(bookings)[IndexOfId(old(bookings), bookingId).value := d.value]
          && r == Ok(MapToDto(d.value))
      ensures IndexOfId(old(bookings), bookingId).Some? && old(bookings)[IndexOfId(old(bookings), bookingId).value].ownerId == userId ==>
        var k := IndexOfId(old(bookings), bookingId).value;
        var b := old(bookings)[k];
        && (approved && OverlappingBookings(old(bookings), b.itemId, b.start, b.end) == [] ==>
              bookings == old(bookings)[k := b.(status := APPROVED)])
        && (!approved ==> bookings == old(bookings)[k := b.(status := BookingStatus.REJECTED)])
    {
      UpdateStatusOutcomes(bookings, userId, bookingId, approved);
      var d := UpdateStatusDecision(bookings, userId, bookingId, approved);
      if d.Err? {
        return Err(d.error);
      }
      var k := IndexOfId(bookings, bookingId).value;
      if d.value.status == APPROVED {
        ApproveKeepsNoOverlap(bookings, k);
      } else {
        UnapproveKeepsNoOverlap(bookings, k, d.value.status);
      }
      bookings := bookings[k := d.value];
      r := Ok(MapToDto(d.value));
    }

    /** findById: the booking, to its item's owner or its booker only. */
    function FindById(userId: int, bookingId: int): (r: Result<BookingDto>)
      reads this
      ensures r == Err(NotFound) <==> forall k :: 0 <= k < |bookings| ==> bookings[k].id != bookingId
      ensures r.Ok? ==> FromDto(r.value) in bookings && r.value.id == bookingId
      ensures r.Ok? ==> r.value.ownerId == userId || r.value.bookerId == userId
      ensures r == Err(Permission) ==>
        exists k :: 0 <= k < |bookings| && bookings[k].id == bookingId && bookings[k].ownerId != userId && bookings[k].bookerId != userId
      ensures r.Err? ==> r.error == NotFound || r.error == Permission
    {
      match IndexOfId(bookings, bookingId)
      case None => Err(NotFound)
      case Some(k) =>
        var b := bookings[k];
        if b.ownerId == userId || b.bookerId == userId then Ok(MapToDto(b)) else Err(Permission)
    }

    /** The common body of the two list operations: the user must exist,
        then the filter value must have a strategy in the side's map. */
    function ListFor(party: Party, userId: int, state: Option<BookingRequestState>, users: set<int>, now: Instant): (r: Result<seq<BookingDto>>)
      reads this
      ensures userId !in users ==> r == Err(NotFound)
      ensures r.Err? ==> r.error == NotFound || r.error == InvalidArgument
      ensures var strategies := if party == Booker then forBooker else forOwner;
        r.Ok? <==> userId in users && state.Some? && state.value in strategies
    {
      var strategies := if party == Booker then forBooker else forOwner;
      if userId !in users then Err(NotFound)
      else if state.None? || state.value !in strategies then Err(InvalidArgument)
      else Ok(MapToDtos(Run(strategies[state.value], bookings, userId, now)))
    }

    /** findAllUsersBookings. */
    function FindAllUsersBookings(bookerId: int, state: Option<BookingRequestState>, users: set<int>, now: Instant): (r: Result<seq<BookingDto>>)
      reads this
      ensures forBooker == StrategyTable(Booker) ==>
        (r.Ok? <==> bookerId in users && state.Some?)
      ensures forBooker == StrategyTable(Booker) && r.Ok? ==>
        && SortedDesc(MapSeq(r.value, FromDto), StartOf)
        && forall b :: MapToDto(b) in r.value <==>
             b in bookings && b.bookerId == bookerId && Matches(state.value, b, now)
    {
      var r := ListFor(Booker, bookerId, state, users, now);
      if forBooker == StrategyTable(Booker) && state.Some? then
        StrategyMeaning(Booker, state.value, bookings, bookerId, now);
        ListMeaning(this, Booker, bookerId, state.value, now);
        r
      else r
    }

    /** findAllBookingsOfOwner. */
    function FindAllBookingsOfOwner(ownerId: int, state: Option<BookingRequestState>, users: set<int>, now: Instant): (r: Result<seq<BookingDto>>)
      reads this
      ensures forOwner == StrategyTable(Owner) ==>
        (r.Ok? <==> ownerId in users && state.Some?)
      ensures forOwner == StrategyTable(Owner) && r.Ok? ==>
        && SortedDesc(MapSeq(r.value, FromDto), StartOf)
        && forall b :: MapToDto(b) in r.value <==>
             b in bookings && b.ownerId == ownerId && Matches(state.value, b, now)
    {
      var r := ListFor(Owner, ownerId, state, users, now);
      if forOwner == StrategyTable(Owner) && state.Some? then
        StrategyMeaning(Owner, state.value, bookings, ownerId, now);
        ListMeaning(this, Owner, ownerId, state.value, now);
        r
      else r
    }
  }

  /** With a strategy map in place, a listing holds exactly the DTOs of
      the matching bookings, latest start first. */
  lemma {:induction false} ListMeaning(s: BookingService, party: Party, userId: int, state: BookingRequestState, now: Instant)
    ensures var rows := Run(StrategyTable(party)[state], s.bookings, userId, now);
      && SortedDesc(MapSeq(MapToDtos(rows), FromDto), StartOf)
      && forall b :: MapToDto(b) in MapToDtos(rows) <==>
           b in s.bookings && Involves(b, party, userId) && Matches(state, b, now)
  {
    StrategyMeaning(party, state, s.bookings, userId, now);
    var rows := Run(StrategyTable(party)[state], s.bookings, userId, now);
    var ds := MapToDtos(rows);
    DtosRoundTrip(rows);
    forall b ensures MapToDto(b) in ds <==> b in rows {
      if MapToDto(b) in ds {
        var k :| 0 <= k < |ds| && ds[k] == MapToDto(b);
        DtoRoundTrip(b, ds[k]);
        DtoRoundTrip(rows[k], ds[k]);
      }
      if b in rows {
        var k :| 0 <= k < |rows| && rows[k] == b;
        assert ds[k] == MapToDto(b);
      }
    }
  }
}
