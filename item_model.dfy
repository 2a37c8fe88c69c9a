/** The item record shared by the in-memory catalog and the database
    catalog, its partial update, the comment transfer object, and the
    owner-only decisions both item services take before a write. */
module Items {
  import opened Common
  import opened Sequences
  import opened Text
  import opened Users
  import opened Bookings

  /** An item. The owner may be null; the request the item answers is
      referred to by its id and may be null as well. */
  datatype Item = Item(
    id: int,
    name: string,
    description: string,
    available: bool,
    owner: Option<User>,
    requestId: Option<int>)

  /** A partial update; a null field keeps the stored value, and
      `available` is text parsed with Boolean.valueOf. */
  datatype UpdateItem = UpdateItem(name: Option<string>, description: Option<string>, available: Option<string>)

  /** A comment as the services return it. */
  datatype CommentDto = CommentDto(id: int, text: string, itemId: int, authorName: string, created: Instant)

  /** The item has an owner and it is the given user. */
  predicate OwnedBy(item: Item, userId: int)
  {
    item.owner.Some? && item.owner.value.id == userId
  }

  /** Every item of the list has an owner (reading the owner's id of any
      of them cannot fail). */
  predicate AllOwned(items: seq<Item>)
  {
    forall k :: 0 <= k < |items| ==> items[k].owner.Some?
  }

  /** updateUsersFields: the non-null fields of the update overwrite the
      item's; id, owner and request are never touched. */
  function ApplyItemUpdate(item: Item, upd: UpdateItem): (r: Item)
    ensures r.id == item.id && r.owner == item.owner && r.requestId == item.requestId
    ensures upd.name.None? ==> r.name == item.name
    ensures upd.name.Some? ==> r.name == upd.name.value
    ensures upd.description.None? ==> r.description == item.description
    ensures upd.description.Some? ==> r.description == upd.description.value
    ensures upd.available.None? ==> r.available == item.available
    ensures upd.available.Some? ==> (r.available <==> EqualsIgnoreCase("true", upd.available.value))
  {
    var named := if upd.name.Some? then item.(name := upd.name.value) else item;
    var described := if upd.description.Some? then named.(description := upd.description.value) else named;
    if upd.available.Some? then described.(available := BooleanValueOf(upd.available)) else described
  }

  /** Applying an update twice is applying it once; an update without
      fields changes nothing; ownership is unaffected. */
  lemma ApplyItemUpdateIdempotent(item: Item, upd: UpdateItem, userId: int)
    ensures ApplyItemUpdate(ApplyItemUpdate(item, upd), upd) == ApplyItemUpdate(item, upd)
    ensures ApplyItemUpdate(item, UpdateItem(None, None, None)) == item
    ensures OwnedBy(ApplyItemUpdate(item, upd), userId) <==> OwnedBy(item, userId)
  {
  }

  /** The decision of `update` once the item has been looked up: an
      absent item is NotFound; an item without owner or owned by someone
      else is refused with Permission; otherwise the updated item. */
  function UpdateOutcome(found: Option<Item>, userId: int, upd: UpdateItem): (r: Result<Item>)
    ensures found.None? ==> r == Err(NotFound)
    ensures found.Some? && !OwnedBy(found.value, userId) ==> r == Err(Permission)
    ensures r.Ok? <==> found.Some? && OwnedBy(found.value, userId)
    ensures r.Ok? ==> r.value == ApplyItemUpdate(found.value, upd) && OwnedBy(r.value, userId)
  {
    match found
    case None => Err(NotFound)
    case Some(item) =>
      if item.owner.None? || item.owner.value.id != userId then Err(Permission)
      else Ok(ApplyItemUpdate(item, upd))
  }

  /** The decision of `deleteItem` once the item has been looked up: the
      owner's id is read without a null check, so the item must have an
      owner; a different owner is refused with Permission. */
  function DeleteOutcome(found: Option<Item>, userId: int): (r: Result<Item>)
    requires found.Some? ==> found.value.owner.Some?
    ensures found.None? ==> r == Err(NotFound)
    ensures r.Ok? <==> found.Some? && OwnedBy(found.value, userId)
    ensures r.Err? && found.Some? ==> r.error == Permission
    ensures r.Ok? ==> r == Ok(found.value)
  {
    match found
    case None => Err(NotFound)
    case Some(item) => if item.owner.value.id != userId then Err(Permission) else Ok(item)
  }

  /** findById on an item table. */
  function IndexOfItem(table: seq<Item>, id: int): (r: Option<nat>)
    ensures r.Some? ==> r.value < |table| && table[r.value].id == id
    ensures r.None? ==> forall k :: 0 <= k < |table| ==> table[k].id != id
  {
    IndexOfKey(table, (i: Item) => i.id, id)
  }

  // ---------------------------------------------------------------------------
  // The collectors the item mappers build their lookups with

  /** No two entries name the same item (the precondition of
      Collectors.toMap keyed by item id, which throws on a duplicate). */
  predicate DatesItemsDistinct(dates: seq<BookingDates>)
  {
    forall i, j :: 0 <= i < j < |dates| ==> dates[i].itemId != dates[j].itemId
  }

  /** The toMap lookup `datesMap.get(itemId)`: the entry for the item, or
      null when there is none. */
  function DatesFor(dates: seq<BookingDates>, itemId: int): (r: Option<BookingDates>)
    ensures r.None? <==> forall k :: 0 <= k < |dates| ==> dates[k].itemId != itemId
    ensures r.Some? ==> r.value in dates && r.value.itemId == itemId
  {
    if dates == [] then None
    else if dates[0].itemId == itemId then Some(dates[0])
    else DatesFor(dates[1..], itemId)
  }

  /** With distinct item ids the lookup finds exactly the entry of the
      list for that item. */
  lemma {:induction false} DatesForExact(dates: seq<BookingDates>, k: nat)
    requires DatesItemsDistinct(dates) && k < |dates|
    ensures DatesFor(dates, dates[k].itemId) == Some(dates[k])
  {
    if k > 0 {
      assert dates[0].itemId != dates[k].itemId;
      assert dates[1..][k - 1] == dates[k];
      DatesForExact(dates[1..], k - 1);
    }
  }

  /** The comments on one item, in list order (findAllByItemId). */
  function CommentsOn(comments: seq<CommentDto>, itemId: int): (r: seq<CommentDto>)
    ensures forall k :: 0 <= k < |r| ==> r[k] in comments && r[k].itemId == itemId
    ensures forall k :: 0 <= k < |comments| && comments[k].itemId == itemId ==> comments[k] in r
  {
    if comments == [] then []
    else
      var rest := CommentsOn(comments[1..], itemId);
      assert forall k :: 1 <= k < |comments| ==> comments[k] == comments[1..][k - 1];
      if comments[0].itemId == itemId then [comments[0]] + rest else rest
  }

  /** The comments on any of the listed items, in list order
      (findAllByItemIdIn). */
  function CommentsOnAny(comments: seq<CommentDto>, itemIds: seq<int>): (r: seq<CommentDto>)
    ensures forall k :: 0 <= k < |r| ==> r[k] in comments && r[k].itemId in itemIds
    ensures forall k :: 0 <= k < |comments| && comments[k].itemId in itemIds ==> comments[k] in r
  {
    if comments == [] then []
    else
      var rest := CommentsOnAny(comments[1..], itemIds);
      assert forall k :: 1 <= k < |comments| ==> comments[k] == comments[1..][k - 1];
      if comments[0].itemId in itemIds then [comments[0]] + rest else rest
  }

  /** The comments on one item are the order-keeping filter of the
      comment table by item id. */
  lemma {:induction false} CommentsOnIsFilter(comments: seq<CommentDto>, itemId: int)
    ensures CommentsOn(comments, itemId) == Filter(comments, (c: CommentDto) => c.itemId == itemId)
  {
    if comments != [] {
      CommentsOnIsFilter(comments[1..], itemId);
    }
  }

  /** The comments on any of the listed items are the order-keeping
      filter of the comment table by membership of the item id. */
  lemma {:induction false} CommentsOnAnyIsFilter(comments: seq<CommentDto>, itemIds: seq<int>)
    ensures CommentsOnAny(comments, itemIds) == Filter(comments, (c: CommentDto) => c.itemId in itemIds)
  {
    if comments != [] {
      CommentsOnAnyIsFilter(comments[1..], itemIds);
    }
  }

  /** Selecting the comments on some items and then those on one of them
      gives that item's comments, in the same order. */
  lemma {:induction false} CommentsOnSelection(comments: seq<CommentDto>, itemIds: seq<int>, itemId: int)
    requires itemId in itemIds
    ensures CommentsOn(CommentsOnAny(comments, itemIds), itemId) == CommentsOn(comments, itemId)
  {
    if comments != [] {
      CommentsOnSelection(comments[1..], itemIds, itemId);
      var rest := CommentsOnAny(comments[1..], itemIds);
      if comments[0].itemId in itemIds {
        assert CommentsOnAny(comments, itemIds) == [comments[0]] + rest;
        assert ([comments[0]] + rest)[1..] == rest;
      }
    }
  }

  /** The groupingBy lookup `commentMap.get(itemId)`: the item's comments
      in list order, or null when it has none (groupingBy makes no empty
      groups), so defaulting null to the empty list gives the item's
      comments either way. */
  function CommentGroup(comments: seq<CommentDto>, itemId: int): (r: Option<seq<CommentDto>>)
    ensures r.None? <==> forall k :: 0 <= k < |comments| ==> comments[k].itemId != itemId
    ensures r.None? ==> CommentsOn(comments, itemId) == []
    ensures r.Some? ==> r.value == CommentsOn(comments, itemId) && r.value != []
  {
    var group := CommentsOn(comments, itemId);
    if group == [] then None
    else
      var c := group[0];
      assert c in comments && c.itemId == itemId;
      Some(group)
  }
}
