/** Conversions of the in-memory catalog between the item record and its
    transfer objects. The item transfer object carries the owner itself
    and the availability as text; the dated view carries the owner's id,
    the last and next booking instants and the comments. */
module ItemMapper {
  import opened Common
  import opened Sequences
  import opened Text
  import opened Users
  import opened Bookings
  import opened Items

  /** The item as clients see it; `available` is text and may be null. */
  datatype ItemDto = ItemDto(
    id: int,
    name: string,
    description: string,
    available: Option<string>,
    owner: Option<User>)

  /** The item with its booking dates and comments; the comments list is
      null until a mapping sets it. */
  datatype ItemDateDto = ItemDateDto(
    id: int,
    name: string,
    description: string,
    available: bool,
    userId: int,
    lastBooking: Option<Instant>,
    nextBooking: Option<Instant>,
    comments: Option<seq<CommentDto>>)

  /** mapToDto: id, name, description and owner copied, availability
      rendered with Boolean.toString. The request is not carried. */
  function MapToDto(item: Item): (d: ItemDto)
    ensures d.id == item.id && d.name == item.name && d.description == item.description
    ensures d.owner == item.owner
    ensures d.available == Some(if item.available then "true" else "false")
  {
    ItemDto(item.id, item.name, item.description, Some(BooleanToString(item.available)), item.owner)
  }

  /** mapToDtos: a stream map, so same length and order. */
  function MapToDtos(items: seq<Item>): (ds: seq<ItemDto>)
    ensures |ds| == |items|
    ensures forall k :: 0 <= k < |items| ==> ds[k] == MapToDto(items[k])
  {
    MapSeq(items, MapToDto)
  }

  /** mapToItem(itemDto, user): the DTO's fields with the given owner and
      no request; `available` parsed with Boolean.valueOf, so a null or
      any text other than "true" in some case gives false. */
  function MapToItemWithOwner(dto: ItemDto, owner: Option<User>): (item: Item)
    ensures item.id == dto.id && item.name == dto.name && item.description == dto.description
    ensures item.owner == owner && item.requestId.None?
    ensures item.available <==> dto.available.Some? && EqualsIgnoreCase("true", dto.available.value)
  {
    Item(dto.id, dto.name, dto.description, BooleanValueOf(dto.available), owner, None)
  }

  /** mapToItem(itemDto): the owner is the DTO's own. */
  function MapToItem(dto: ItemDto): (item: Item)
    ensures item == MapToItemWithOwner(dto, dto.owner)
  {
    MapToItemWithOwner(dto, dto.owner)
  }

  /** An item survives the trip through its DTO except for the request,
      which the DTO does not carry; in particular the availability comes
      back unchanged. */
  lemma ItemRoundTrip(item: Item)
    ensures MapToItem(MapToDto(item)) == item.(requestId := None)
    ensures MapToItem(MapToDto(item)).available == item.available
  {
    BooleanRoundTrip(item.available);
  }

  /** A DTO whose availability is spelt "true" or "false" survives the
      trip through the item; any other spelling comes back as "true" or
      "false". */
  lemma DtoRoundTrip(dto: ItemDto)
    ensures dto.available == Some("true") || dto.available == Some("false") ==> MapToDto(MapToItem(dto)) == dto
    ensures MapToDto(MapToItem(dto)).available == Some(if BooleanValueOf(dto.available) then "true" else "false")
  {
    if dto.available == Some("false") {
      BooleanRoundTrip(false);
    }
  }

  /** mapToItemDateDto(item, dates): the item's fields, its owner's id
      (read without a null check, so the item must have an owner), and
      the previous and next booking of `dates`, both null when `dates` is
      null. The comments stay null. */
  function MapToItemDateDto(item: Item, dates: Option<BookingDates>): (d: ItemDateDto)
    requires item.owner.Some?
    ensures d.id == item.id && d.name == item.name && d.description == item.description
    ensures d.available == item.available && d.userId == item.owner.value.id
    ensures dates.None? ==> d.lastBooking.None? && d.nextBooking.None?
    ensures dates.Some? ==> d.lastBooking == dates.value.previous && d.nextBooking == dates.value.next
    ensures d.comments.None?
  {
    var previous := if dates.Some? then dates.value.previous else None;
    var next := if dates.Some? then dates.value.next else None;
    ItemDateDto(item.id, item.name, item.description, item.available, item.owner.value.id, previous, next, None)
  }

  /** mapToItemDateDto(item, dates, comments): the same, with the
      comments set and a null list replaced by an empty one. */
  function MapToItemDateDtoWithComments(item: Item, dates: Option<BookingDates>, comments: Option<seq<CommentDto>>): (d: ItemDateDto)
    requires item.owner.Some?
    ensures d == MapToItemDateDto(item, dates).(comments := d.comments)
    ensures comments.None? ==> d.comments == Some([])
    ensures comments.Some? ==> d.comments == comments
  {
    MapToItemDateDto(item, dates).(comments := Some(if comments.Some? then comments.value else []))
  }

  /** mapToItemDateDto(items, bookingDates): one dated view per item, in
      order, each with the dates listed for its id (none if absent). The
      dates are collected with toMap, which throws on a repeated item id. */
  function MapToItemDateDtos(items: seq<Item>, dates: seq<BookingDates>): (ds: seq<ItemDateDto>)
    requires AllOwned(items) && DatesItemsDistinct(dates)
    ensures |ds| == |items|
    ensures forall k :: 0 <= k < |items| ==> ds[k] == MapToItemDateDto(items[k], DatesFor(dates, items[k].id))
  {
    seq(|items|, k requires 0 <= k < |items| => MapToItemDateDto(items[k], DatesFor(dates, items[k].id)))
  }

  /** mapToItemDateDto(items, bookingDates, comments): the same, each
      item also getting its group of the comments (grouped by item id). */
  function MapToItemDateDtosWithComments(items: seq<Item>, dates: seq<BookingDates>, comments: seq<CommentDto>): (ds: seq<ItemDateDto>)
    requires AllOwned(items) && DatesItemsDistinct(dates)
    ensures |ds| == |items|
    ensures forall k :: 0 <= k < |items| ==>
      ds[k] == MapToItemDateDtoWithComments(items[k], DatesFor(dates, items[k].id), CommentGroup(comments, items[k].id))
  {
    seq(|items|, k requires 0 <= k < |items| =>
      MapToItemDateDtoWithComments(items[k], DatesFor(dates, items[k].id), CommentGroup(comments, items[k].id)))
  }

  /** What each dated view of the list holds: the booking dates listed
      for that very item (or none when the item is not listed), and
      exactly the comments on that item, in order, an item without
      comments getting an empty list. */
  lemma {:induction false} ItemDateDtosMeaning(items: seq<Item>, dates: seq<BookingDates>, comments: seq<CommentDto>, k: nat, j: nat)
    requires AllOwned(items) && DatesItemsDistinct(dates) && k < |items|
    ensures var d := MapToItemDateDtosWithComments(items, dates, comments)[k];
      && d.id == items[k].id
      && d.comments == Some(CommentsOn(comments, items[k].id))
      && (j < |dates| && dates[j].itemId == items[k].id ==>
            d.lastBooking == dates[j].previous && d.nextBooking == dates[j].next)
      && ((forall i :: 0 <= i < |dates| ==> dates[i].itemId != items[k].id) ==>
            d.lastBooking.None? && d.nextBooking.None?)
  {
    if j < |dates| && dates[j].itemId == items[k].id {
      DatesForExact(dates, j);
    }
  }
}
