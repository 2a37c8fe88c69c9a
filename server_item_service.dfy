/** The item service of the database catalog: creation (optionally in
    answer to a request), owner-only update and deletion, the dated views
    of one item and of an owner's items, the text search and comments.
    The item and comment tables are the service's state; the user,
    request and booking tables it only reads are passed in, as is the
    instant `now` the service reads from the clock. */
module ServerItemCatalog {
  import opened Common
  import opened Sequences
  import opened Text
  import opened Users
  import opened Bookings
  import opened BookingQueries
  import opened ServerBookingQueries
  import opened Items
  import opened ServerItemMapper
  import opened Requests
  import UserAccounts

  /** The checks of `create` before anything is saved: a request id that
      names no request is NotFound, and is checked before the user; then
      an unknown user is NotFound. On success, the owner. */
  function CreateCheck(users: seq<User>, requests: seq<ItemRequest>, userId: int, dto: ItemDto): (r: Result<User>)
    ensures r.Ok? <==>
      && (dto.requestId.Some? ==> exists k :: 0 <= k < |requests| && requests[k].id == dto.requestId.value)
      && (exists k :: 0 <= k < |users| && users[k].id == userId)
    ensures r.Err? ==> r.error == NotFound
    ensures r.Ok? ==> r.value in users && r.value.id == userId
  {
    if dto.requestId.Some? && IndexOfRequest(requests, dto.requestId.value).None? then Err(NotFound)
    else match UserAccounts.IndexOfUser(users, userId)
      case None => Err(NotFound)
      case Some(k) => Ok(users[k])
  }

  /** The checks of `addComment` before anything is saved: an unknown
      user is NotFound, then an unknown item is NotFound, then a user who
      has no APPROVED booking of the item that ended before now is refused
      with Validation. On success, the author. */
  function CommentCheck(users: seq<User>, userId: int, found: Option<Item>, bookings: seq<Booking>, itemId: int, now: Instant): (r: Result<User>)
    ensures UserAccounts.IndexOfUser(users, userId).None? ==> r == Err(NotFound)
    ensures UserAccounts.IndexOfUser(users, userId).Some? && found.None? ==> r == Err(NotFound)
    ensures r == Err(Validation) <==>
      && UserAccounts.IndexOfUser(users, userId).Some? && found.Some?
      && forall b :: b in bookings && b.bookerId == userId && b.itemId == itemId && b.status == APPROVED ==> b.end >= now
    ensures r.Ok? <==>
      && UserAccounts.IndexOfUser(users, userId).Some? && found.Some?
      && exists b :: b in bookings && b.bookerId == userId && b.itemId == itemId && b.status == APPROVED && b.end < now
    ensures r.Ok? ==> r.value in users && r.value.id == userId
  {
    match UserAccounts.IndexOfUser(users, userId)
    case None => Err(NotFound)
    case Some(k) =>
      if found.None? then Err(NotFound)
      else
        var finished := FinishedBookingsOf(bookings, userId, itemId, APPROVED, now);
        if finished == [] then Err(Validation)
        else
          assert finished[0] in finished;
          Ok(users[k])
  }

  /** A finished APPROVED booking is what lets a known user comment on a
      known item, whatever else the tables hold; when the user's only
      booking of the item is still running at `now`, or was never
      approved, the comment is refused. */
  lemma CommentEligibility(users: seq<User>, userId: int, item: Item, bookings: seq<Booking>, b: Booking, now: Instant)
    requires UserAccounts.IndexOfUser(users, userId).Some?
    requires b in bookings && b.bookerId == userId && b.itemId == item.id
    ensures b.status == APPROVED && b.end < now ==>
      CommentCheck(users, userId, Some(item), bookings, item.id, now).Ok?
    ensures
      && (b.end >= now || b.status != APPROVED)
      && (forall c :: c in bookings && c.bookerId == userId && c.itemId == item.id ==> c == b)
      ==> CommentCheck(users, userId, Some(item), bookings, item.id, now) == Err(Validation)
  {
  }

  /** Deleting the row at `k` from a table of distinct ids leaves every
      other row, so the ids stay distinct, bounded and owned, and no row
      keeps the deleted id. */
  lemma RemoveRow(rows: seq<Item>, k: nat, next: int)
    requires k < |rows|
    requires forall i, j :: 0 <= i < j < |rows| ==> rows[i].id != rows[j].id
    requires forall m :: 0 <= m < |rows| ==> 1 <= rows[m].id < next
    requires AllOwned(rows)
    ensures var after := rows[..k] + rows[k + 1..];
      && (forall j :: 0 <= j < |after| ==> after[j].id != rows[k].id)
      && (forall i, j :: 0 <= i < j < |after| ==> after[i].id != after[j].id)
      && (forall m :: 0 <= m < |after| ==> 1 <= after[m].id < next)
      && AllOwned(after)
  {
    var after := rows[..k] + rows[k + 1..];
    assert forall j :: 0 <= j < |after| ==> after[j] == rows[if j < k then j else j + 1];
  }

  /** getItemsByQuery: a blank query gives nothing without running the
      search; otherwise the rows `found` that the text query returned
      (findByQueryText, not part of this model), as DTOs in order. */
  function GetItemsByQuery(query: string, found: seq<Item>): (r: seq<ItemDto>)
    requires AllOwned(found)
    ensures IsBlank(query) ==> r == []
    ensures !IsBlank(query) ==> |r| == |found| && forall k :: 0 <= k < |found| ==> r[k] == MapToDto(found[k])
  {
    if IsBlank(query) then [] else MapToDtos(found)
  }

  class ItemService {
    var items: seq<Item>
    var nextItemId: int
    var comments: seq<CommentDto>
    var nextCommentId: int

    ghost predicate Valid()
      reads this
    {
      && nextItemId >= 1 && nextCommentId >= 1
      && (forall k :: 0 <= k < |items| ==> 1 <= items[k].id < nextItemId)
      && (forall i, j :: 0 <= i < j < |items| ==> items[i].id != items[j].id)
      && AllOwned(items)
      && (forall k :: 0 <= k < |comments| ==> 1 <= comments[k].id < nextCommentId)
    }

    constructor ()
      ensures Valid() && items == [] && comments == [] && nextItemId == 1 && nextCommentId == 1
    {
      items, comments := [], [];
      nextItemId, nextCommentId := 1, 1;
    }

    /** The stored item with the id, or null. */
    function Lookup(id: int): (r: Option<Item>)
      reads this
      ensures r.Some? <==> exists k :: 0 <= k < |items| && items[k].id == id
      ensures r.Some? ==> r.value in items && r.value.id == id
    {
      match IndexOfItem(items, id)
      case None => None
      case Some(k) => Some(items[k])
    }

    /** create: after the checks, the item built from the DTO, its owner
        and its request is saved under the next identity value and
        returned as a DTO; a failed check saves nothing. */
    method Create(userId: int, dto: ItemDto, users: seq<User>, requests: seq<ItemRequest>) returns (r: Result<ItemDto>)
      requires Valid()
      modifies this
      ensures Valid()
      ensures comments == old(comments) && nextCommentId == old(nextCommentId)
      ensures var c := CreateCheck(users, requests, userId, dto);
        c.Err? ==> r == Err(c.error) && items == old(items) && nextItemId == old(nextItemId)
      ensures var c := CreateCheck(users, requests, userId, dto);
        c.Ok? ==>
          var item := MapToItemForRequest(dto, Some(c.value), dto.requestId).(id := old(nextItemId));
          && items == old(items) + [item]
          && nextItemId == old(nextItemId) + 1
          && r == Ok(MapToDto(item))
    {
      var c := CreateCheck(users, requests, userId, dto);
      if c.Err? {
        return Err(c.error);
      }
      var item := MapToItemForRequest(dto, Some(c.value), dto.requestId).(id := nextItemId);
      items := items + [item];
      nextItemId := nextItemId + 1;
      r := Ok(MapToDto(item));
    }

    /** update: an unknown item is NotFound, a caller who is not the owner
        (or an item without owner) is refused with Permission, both
        changing nothing; otherwise the item's row gets the non-null
        fields of the update. */
    method Update(userId: int, itemId: int, upd: UpdateItem) returns (r: Result<ItemDto>)
      requires Valid()
      modifies this
      ensures Valid()
      ensures comments == old(comments) && nextItemId == old(nextItemId) && nextCommentId == old(nextCommentId)
      ensures var d := UpdateOutcome(old(Lookup(itemId)), userId, upd);
        d.Err? ==> r == Err(d.error) && items == old(items)
      ensures var d := UpdateOutcome(old(Lookup(itemId)), userId, upd);
        d.Ok? ==>
          && items == old(items)[IndexOfItem(old(items), itemId).value := d.value]
          && r == Ok(MapToDto(d.value))
    {
      var d := UpdateOutcome(Lookup(itemId), userId, upd);
      if d.Err? {
        return Err(d.error);
      }
      var k := IndexOfItem(items, itemId).value;
      items := items[k := d.value];
      r := Ok(MapToDto(d.value));
    }

    /** getItemById: the dated view of the item with all its comments, in
        table order; an unknown item is NotFound. The booking dates are
        looked up but the view carries none. */
    function GetItemById(itemId: int, bookings: seq<Booking>, now: Instant): (r: Result<ItemDateDto>)
      requires Valid()
      reads this
      ensures r.Err? <==> Lookup(itemId).None?
      ensures r.Err? ==> r.error == NotFound
      ensures r.Ok? ==>
        && r.value.id == itemId
        && r.value.comments == CommentsOn(comments, itemId)
        && r.value.lastBooking.None? && r.value.nextBooking.None?
    {
      match Lookup(itemId)
      case None => Err(NotFound)
      case Some(item) =>
        Ok(MapToItemDateDto(item, ItemBookingDates(bookings, itemId, now), Some(CommentsOn(comments, itemId))))
    }

    /** The view does not depend on which of the two booking date queries
        is used, so the swapped aggregates of findBookingDates never reach
        a client. */
    lemma GetItemByIdHidesDates(itemId: int, bookings: seq<Booking>, now: Instant)
      requires Valid()
      ensures GetItemById(itemId, bookings, now).Ok? ==>
        var item := Lookup(itemId).value;
        GetItemById(itemId, bookings, now).value
          == MapToItemDateDto(item, ItemBookingDatesAsWritten(bookings, itemId, now), Some(CommentsOn(comments, itemId)))
    {
    }

    /** getAllUsersItems: the dated view of each item of the owner, in
        table order, each with exactly its comments. */
    function GetAllUsersItems(ownerId: int, bookings: seq<Booking>, now: Instant): (r: seq<ItemDateDto>)
      requires Valid()
      reads this
      ensures var owned := Filter(items, (it: Item) => OwnedBy(it, ownerId));
        && |r| == |owned|
        && forall k :: 0 <= k < |r| ==>
             && r[k].id == owned[k].id && r[k].userId == ownerId
             && r[k].comments == CommentsOn(comments, owned[k].id)
             && r[k].lastBooking.None? && r[k].nextBooking.None?
    {
      var owned := Filter(items, (it: Item) => OwnedBy(it, ownerId));
      var dates := OwnerBookingDatesRows(bookings, ownerId, now);
      var ids := MapSeq(owned, (it: Item) => it.id);
      var selected := CommentsOnAny(comments, ids);
      SelectedCommentsOfViews(owned, dates, comments, ids);
      MapToItemDateDtos(owned, dates, selected)
    }

    /** The views built from the comments on the listed items carry each
        item's own comments. */
    static lemma SelectedCommentsOfViews(owned: seq<Item>, dates: seq<BookingDates>, comments: seq<CommentDto>, ids: seq<int>)
      requires AllOwned(owned) && DatesItemsDistinct(dates)
      requires |ids| == |owned| && forall k :: 0 <= k < |owned| ==> ids[k] == owned[k].id
      ensures var r := MapToItemDateDtos(owned, dates, CommentsOnAny(comments, ids));
        forall k :: 0 <= k < |r| ==> r[k].comments == CommentsOn(comments, owned[k].id)
    {
      var r := MapToItemDateDtos(owned, dates, CommentsOnAny(comments, ids));
      forall k | 0 <= k < |r| ensures r[k].comments == CommentsOn(comments, owned[k].id) {
        ItemDateDtosMeaning(owned, dates, CommentsOnAny(comments, ids), k);
        CommentsOnSelection(comments, ids, owned[k].id);
      }
    }

    /** deleteItem: an unknown item is NotFound and a caller who is not the
        owner is refused with Permission, both changing nothing; otherwise
        the row is removed and the item returned as it was. */
    method DeleteItem(userId: int, itemId: int) returns (r: Result<ItemDto>)
      requires Valid()
      modifies this
      ensures Valid()
      ensures comments == old(comments) && nextItemId == old(nextItemId) && nextCommentId == old(nextCommentId)
      ensures var d := DeleteOutcome(old(Lookup(itemId)), userId);
        d.Err? ==> r == Err(d.error) && items == old(items)
      ensures var d := DeleteOutcome(old(Lookup(itemId)), userId);
        d.Ok? ==>
          && r == Ok(MapToDto(d.value))
          && items == old(items)[..IndexOfItem(old(items), itemId).value] + old(items)[IndexOfItem(old(items), itemId).value + 1..]
          && Lookup(itemId).None?
    {
      var d := DeleteOutcome(Lookup(itemId), userId);
      if d.Err? {
        return Err(d.error);
      }
      var k := IndexOfItem(items, itemId).value;
      RemoveRow(items, k, nextItemId);
      items := items[..k] + items[k + 1..];
      r := Ok(MapToDto(d.value));
    }

    /** addComment: after the checks, a comment with the next identity
        value, the text, the item, the author's name and the instant `now`
        is saved and returned; a failed check saves nothing. */
    method AddComment(userId: int, itemId: int, text: string, users: seq<User>, bookings: seq<Booking>, now: Instant)
      returns (r: Result<CommentDto>)
      requires Valid()
      modifies this
      ensures Valid()
      ensures items == old(items) && nextItemId == old(nextItemId)
      ensures var c := CommentCheck(users, userId, old(Lookup(itemId)), bookings, itemId, now);
        c.Err? ==> r == Err(c.error) && comments == old(comments) && nextCommentId == old(nextCommentId)
      ensures var c := CommentCheck(users, userId, old(Lookup(itemId)), bookings, itemId, now);
        c.Ok? ==>
          var comment := CommentDto(old(nextCommentId), text, itemId, c.value.name, now);
          && comments == old(comments) + [comment]
          && nextCommentId == old(nextCommentId) + 1
          && r == Ok(comment)
    {
      var c := CommentCheck(users, userId, Lookup(itemId), bookings, itemId, now);
      if c.Err? {
        return Err(c.error);
      }
      var comment := CommentDto(nextCommentId, text, itemId, c.value.name, now);
      comments := comments + [comment];
      nextCommentId := nextCommentId + 1;
      r := Ok(comment);
    }
  }
}
