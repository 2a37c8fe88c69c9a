/** Conversions of the database catalog between the item record and its
    transfer objects. Here the item transfer object carries the owner's id
    and the request's id; the dated view never carries booking dates. */
module ServerItemMapper {
  import opened Common
  import opened Sequences
  import opened Text
  import opened Users
  import opened Bookings
  import opened Items

  /** The item as clients see it; `available` is text and may be null, and
      so may the id of the request the item answers. */
  datatype ItemDto = ItemDto(
    id: int,
    name: string,
    description: string,
    available: Option<string>,
    userId: int,
    requestId: Option<int>)

  /** The item with its booking dates, comments and request id. */
  datatype ItemDateDto = ItemDateDto(
    id: int,
    name: string,
    description: string,
    available: bool,
    userId: int,
    lastBooking: Option<Instant>,
    nextBooking: Option<Instant>,
    comments: seq<CommentDto>,
    requestId: Option<int>)

  /** mapToDto: the owner's id (read without a null check), the request's
      id or null, availability rendered as "true"/"false". */
  function MapToDto(item: Item): (d: ItemDto)
    requires item.owner.Some?
    ensures d.id == item.id && d.name == item.name && d.description == item.description
    ensures d.userId == item.owner.value.id
    ensures d.requestId.None? <==> item.requestId.None?
    ensures d.requestId == item.requestId
    ensures d.available == Some(if item.available then "true" else "false")
  {
    ItemDto(item.id, item.name, item.description, Some(BooleanToString(item.available)), item.owner.value.id, item.requestId)
  }

  /** mapToDtos: a stream map, so same length and order. */
  function MapToDtos(items: seq<Item>): (ds: seq<ItemDto>)
    requires AllOwned(items)
    ensures |ds| == |items|
    ensures forall k :: 0 <= k < |items| ==> ds[k] == MapToDto(items[k])
  {
    seq(|items|, k requires 0 <= k < |items| => MapToDto(items[k]))
  }

  /** mapToItem(itemDto, user, itemRequest): the DTO's fields with the
      given owner and request; `available` parsed with Boolean.valueOf. */
  function MapToItemForRequest(dto: ItemDto, owner: Option<User>, requestId: Option<int>): (item: Item)
    ensures item.id == dto.id && item.name == dto.name && item.description == dto.description
    ensures item.owner == owner && item.requestId == requestId
    ensures item.available <==> dto.available.Some? && EqualsIgnoreCase("true", dto.available.value)
  {
    Item(dto.id, dto.name, dto.description, BooleanValueOf(dto.available), owner, requestId)
  }

  /** mapToItem(itemDto, user): no request. */
  function MapToItem(dto: ItemDto, owner: Option<User>): (item: Item)
    ensures item == MapToItemForRequest(dto, owner, None)
  {
    MapToItemForRequest(dto, owner, None)
  }

  /** An owned item survives the trip through its DTO when it is rebuilt
      with its owner: the DTO keeps the owner's id and the request's id. */
  lemma ItemRoundTrip(item: Item)
    requires item.owner.Some?
    ensures MapToItemForRequest(MapToDto(item), item.owner, MapToDto(item).requestId) == item
  {
    BooleanRoundTrip(item.available);
  }

  /** A DTO with availability "true" or "false" survives the trip through
      the item when the owner has the DTO's user id. */
  lemma DtoRoundTrip(dto: ItemDto, owner: User)
    requires owner.id == dto.userId
    requires dto.available == Some("true") || dto.available == Some("false")
    ensures MapToDto(MapToItemForRequest(dto, Some(owner), dto.requestId)) == dto
  {
    if dto.available == Some("false") {
      BooleanRoundTrip(false);
    }
  }

  /** mapToItemDateDto(item, dates, comments): the item's fields, its
      owner's id and its request's id; the last and next booking are set
      to null whatever `dates` holds; null comments become an empty list. */
  function MapToItemDateDto(item: Item, dates: Option<BookingDates>, comments: Option<seq<CommentDto>>): (d: ItemDateDto)
    requires item.owner.Some?
    ensures d.id == item.id && d.name == item.name && d.description == item.description
    ensures d.available == item.available && d.userId == item.owner.value.id
    ensures d.requestId == item.requestId
    ensures d.lastBooking.None? && d.nextBooking.None?
    ensures comments.None? ==> d.comments == []
    ensures comments.Some? ==> d.comments == comments.value
  {
    var cs := if comments.None? then [] else comments.value;
    ItemDateDto(item.id, item.name, item.description, item.available, item.owner.value.id, None, None, cs, item.requestId)
  }

  /** The booking dates make no difference to the dated view. */
  lemma DatesIgnored(item: Item, d1: Option<BookingDates>, d2: Option<BookingDates>, comments: Option<seq<CommentDto>>)
    requires item.owner.Some?
    ensures MapToItemDateDto(item, d1, comments) == MapToItemDateDto(item, d2, comments)
  {
  }

  /** mapToItemDateDto(items, bookingDates, comments): one dated view per
      item, in order, with its group of the comments. The dates are still
      collected with toMap, which throws on a repeated item id, although
      the views do not use them. */
  function MapToItemDateDtos(items: seq<Item>, dates: seq<BookingDates>, comments: seq<CommentDto>): (ds: seq<ItemDateDto>)
    requires AllOwned(items) && DatesItemsDistinct(dates)
    ensures |ds| == |items|
    ensures forall k :: 0 <= k < |items| ==>
      ds[k] == MapToItemDateDto(items[k], DatesFor(dates, items[k].id), CommentGroup(comments, items[k].id))
  {
    seq(|items|, k requires 0 <= k < |items| =>
      MapToItemDateDto(items[k], DatesFor(dates, items[k].id), CommentGroup(comments, items[k].id)))
  }

  /** Each dated view of the list carries exactly the comments on its
      item, in order, and no booking dates. */
  lemma ItemDateDtosMeaning(items: seq<Item>, dates: seq<BookingDates>, comments: seq<CommentDto>, k: nat)
    requires AllOwned(items) && DatesItemsDistinct(dates) && k < |items|
    ensures var d := MapToItemDateDtos(items, dates, comments)[k];
      && d.id == items[k].id
      && d.comments == CommentsOn(comments, items[k].id)
      && d.lastBooking.None? && d.nextBooking.None?
  {
  }
}
