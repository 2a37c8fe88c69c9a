/** Conversions of item requests into their transfer objects, alone or
    with the items offered in answer to them. */
module ItemRequestMapper {
  import opened Common
  import opened Sequences
  import opened Users
  import opened Items
  import opened Requests

  /** What a client sends to create a request. */
  datatype ItemRequestCreateDto = ItemRequestCreateDto(description: string)

  /** A request as clients see it; the requestor's id may be null. */
  datatype ItemRequestDto = ItemRequestDto(id: int, description: string, requestorId: Option<int>, created: Instant)

  /** What a request's view says of an item offered for it. */
  datatype ItemRequestData = ItemRequestData(itemId: int, name: string, ownerId: int)

  /** A request with the items offered for it; the list may be null. */
  datatype ItemRequestItemsDto = ItemRequestItemsDto(
    id: int,
    description: string,
    requestorId: Option<int>,
    created: Instant,
    items: Option<seq<ItemRequestData>>)

  /** The requestor's id, or null when there is no requestor. */
  function RequestorId(request: ItemRequest): (r: Option<int>)
    ensures r.None? <==> request.requestor.None?
    ensures r.Some? ==> r.value == request.requestor.value.id
  {
    match request.requestor
    case None => None
    case Some(u) => Some(u.id)
  }

  /** mapToItemRequest: a new request (id 0 until saved) with the DTO's
      description, the requestor, and the creation instant. */
  function MapToItemRequest(dto: ItemRequestCreateDto, requestor: User, created: Instant): (r: ItemRequest)
    ensures r.id == 0 && r.description == dto.description
    ensures r.requestor == Some(requestor) && r.created == created
  {
    ItemRequest(0, dto.description, Some(requestor), created)
  }

  /** mapToItemRequestDto(itemRequest): id, description and creation
      instant copied; the requestor's id, null exactly when there is no
      requestor. */
  function MapToItemRequestDto(request: ItemRequest): (d: ItemRequestDto)
    ensures d.id == request.id && d.description == request.description && d.created == request.created
    ensures d.requestorId.None? <==> request.requestor.None?
    ensures d.requestorId.Some? ==> d.requestorId.value == request.requestor.value.id
  {
    ItemRequestDto(request.id, request.description, RequestorId(request), request.created)
  }

  /** mapToItemRequestDtos(requests): a stream map, same length and order. */
  function MapToItemRequestDtos(requests: seq<ItemRequest>): (ds: seq<ItemRequestDto>)
    ensures |ds| == |requests|
    ensures forall k :: 0 <= k < |requests| ==> ds[k] == MapToItemRequestDto(requests[k])
  {
    MapSeq(requests, MapToItemRequestDto)
  }

  /** mapItemToItemRequestData: the item's id and name and its owner's id
      (read without a null check). */
  function MapItemToItemRequestData(item: Item): (d: ItemRequestData)
    requires item.owner.Some?
    ensures d.itemId == item.id && d.name == item.name && d.ownerId == item.owner.value.id
  {
    ItemRequestData(item.id, item.name, item.owner.value.id)
  }

  /** The request data of each item, in order. */
  function ItemsData(items: seq<Item>): (ds: seq<ItemRequestData>)
    requires AllOwned(items)
    ensures |ds| == |items|
    ensures forall k :: 0 <= k < |items| ==> ds[k] == MapItemToItemRequestData(items[k])
  {
    seq(|items|, k requires 0 <= k < |items| => MapItemToItemRequestData(items[k]))
  }

  /** mapRequestDataToItemRequestItemsDto: the request's fields with the
      given item list (which may be null). */
  function WithItems(request: ItemRequest, items: Option<seq<ItemRequestData>>): (d: ItemRequestItemsDto)
    ensures d.id == request.id && d.description == request.description && d.created == request.created
    ensures d.requestorId == RequestorId(request) && d.items == items
  {
    ItemRequestItemsDto(request.id, request.description, RequestorId(request), request.created, items)
  }

  /** mapToItemRequestDto(request, items): the request with the data of
      the given items, in order; the list is never null, even when empty. */
  function MapToItemRequestItemsDto(request: ItemRequest, items: seq<Item>): (d: ItemRequestItemsDto)
    requires AllOwned(items)
    ensures d == WithItems(request, Some(ItemsData(items)))
  {
    WithItems(request, Some(ItemsData(items)))
  }

  /** The items answering the request with this id, in list order. */
  function ItemsFor(items: seq<Item>, requestId: int): (r: seq<Item>)
    ensures forall k :: 0 <= k < |r| ==> r[k] in items && r[k].requestId == Some(requestId)
    ensures forall k :: 0 <= k < |items| && items[k].requestId == Some(requestId) ==> items[k] in r
    ensures AllOwned(items) ==> AllOwned(r)
  {
    if items == [] then []
    else
      var init := items[..|items| - 1];
      var last := items[|items| - 1];
      var rest := ItemsFor(init, requestId);
      assert items == init + [last];
      assert AllOwned(items) ==> AllOwned(init);
      if last.requestId == Some(requestId) then rest + [last] else rest
  }

  /** ItemsFor selects what a filter on the request id selects. */
  lemma {:induction false} ItemsForIsFilter(items: seq<Item>, requestId: int)
    ensures ItemsFor(items, requestId) == Filter(items, (it: Item) => it.requestId == Some(requestId))
  {
    var p := (it: Item) => it.requestId == Some(requestId);
    if items != [] {
      var init := items[..|items| - 1];
      var last := items[|items| - 1];
      ItemsForIsFilter(init, requestId);
      assert items == init + [last];
      FilterConcat(init, [last], p);
      assert Filter([last], p) == (if p(last) then [last] else []);
    }
  }

  /** The item group of a request in the grouped mapping: the data of the
      items answering it, in order, or null when there are none. */
  function GroupFor(items: seq<Item>, requestId: int): (r: Option<seq<ItemRequestData>>)
    requires AllOwned(items)
    ensures r.None? <==> forall k :: 0 <= k < |items| ==> items[k].requestId != Some(requestId)
    ensures r.Some? ==> r.value == ItemsData(ItemsFor(items, requestId)) && r.value != []
  {
    var found := ItemsFor(items, requestId);
    if found == [] then None
    else
      assert found[0] in items;
      Some(ItemsData(found))
  }

  /** One more item extends the selection by that item when it answers
      the request, and leaves it unchanged otherwise. */
  lemma ItemsForSnoc(items: seq<Item>, item: Item, requestId: int)
    ensures ItemsFor(items + [item], requestId)
      == ItemsFor(items, requestId) + (if item.requestId == Some(requestId) then [item] else [])
  {
    assert (items + [item])[..|items|] == items;
  }

  /** An item list in which no item answers the request selects nothing. */
  lemma ItemsForNone(items: seq<Item>, requestId: int)
    requires forall k :: 0 <= k < |items| ==> items[k].requestId != Some(requestId)
    ensures ItemsFor(items, requestId) == []
  {
  }

  /** Some item of the list answers the request. */
  predicate Answered(items: seq<Item>, requestId: int)
  {
    exists k :: 0 <= k < |items| && items[k].requestId == Some(requestId)
  }

  /** One more item answers the request exactly when it or an earlier one
      does. */
  lemma AnsweredSnoc(items: seq<Item>, item: Item, requestId: int)
    ensures Answered(items + [item], requestId) <==> Answered(items, requestId) || item.requestId == Some(requestId)
  {
    if Answered(items + [item], requestId) && item.requestId != Some(requestId) {
      var k :| 0 <= k < |items| + 1 && (items + [item])[k].requestId == Some(requestId);
      assert items[k].requestId == Some(requestId);
    }
    if Answered(items, requestId) {
      var k :| 0 <= k < |items| && items[k].requestId == Some(requestId);
      assert (items + [item])[k] == items[k];
    }
    if item.requestId == Some(requestId) {
      assert (items + [item])[|items|] == item;
    }
  }

  /** The data of one more item extend the data of the list. */
  lemma ItemsDataSnoc(items: seq<Item>, item: Item)
    requires AllOwned(items) && item.owner.Some?
    ensures AllOwned(items + [item])
    ensures ItemsData(items + [item]) == ItemsData(items) + [MapItemToItemRequestData(item)]
  {
  }

  /** `groups` maps each request id some item answers, and only those, to
      the data of the items answering it, in list order. */
  ghost predicate IsGrouping(groups: map<int, seq<ItemRequestData>>, items: seq<Item>)
  {
    && AllOwned(items)
    && (forall id :: id in groups <==> Answered(items, id))
    && (forall id :: id in groups ==> groups[id] == ItemsData(ItemsFor(items, id)))
  }

  /** One pass of the first loop: appending the item's data to the list
      of its request (a new list when there is none) groups one more
      item. */
  lemma GroupingSnoc(groups: map<int, seq<ItemRequestData>>, prefix: seq<Item>, item: Item)
    requires IsGrouping(groups, prefix) && item.owner.Some? && item.requestId.Some?
    ensures var id := item.requestId.value;
      var before := if id in groups then groups[id] else [];
      IsGrouping(groups[id := before + [MapItemToItemRequestData(item)]], prefix + [item])
  {
    var id := item.requestId.value;
    var before := if id in groups then groups[id] else [];
    var after := groups[id := before + [MapItemToItemRequestData(item)]];
    if id !in groups {
      assert !Answered(prefix, id);
      ItemsForNone(prefix, id);
    }
    ItemsForSnoc(prefix, item, id);
    ItemsDataSnoc(ItemsFor(prefix, id), item);
    forall other ensures other in after <==> Answered(prefix + [item], other) {
      AnsweredSnoc(prefix, item, other);
    }
    forall other | other in after && other != id
      ensures after[other] == ItemsData(ItemsFor(prefix + [item], other))
    {
      ItemsForSnoc(prefix, item, other);
    }
  }

  /** The first loop of the grouped mapping: a hash map from request id to
      the data of the items answering it, in list order; a request id is a
      key exactly when some item answers it. */
  method GroupItems(items: seq<Item>) returns (groups: map<int, seq<ItemRequestData>>)
    requires AllOwned(items)
    requires forall k :: 0 <= k < |items| ==> items[k].requestId.Some?
    ensures forall id :: id in groups <==> Answered(items, id)
    ensures forall id :: id in groups ==> groups[id] == ItemsData(ItemsFor(items, id))
  {
    groups := map[];
    var i := 0;
    while i < |items|
      invariant 0 <= i <= |items|
      invariant IsGrouping(groups, items[..i])
    {
      var item := items[i];
      var id := item.requestId.value;
      assert items[..i + 1] == items[..i] + [item];
      GroupingSnoc(groups, items[..i], item);
      var before := if id in groups then groups[id] else [];
      groups := groups[id := before + [MapItemToItemRequestData(item)]];
      i := i + 1;
    }
    assert items[..i] == items;
  }

  /** mapToItemRequestDtos(requests, items): the items' data are first
      gathered per request id in a hash map of lists (every item must
      answer a request), then each request, in order, gets its list, or
      null when no item answers it. Items answering none of the requests
      are not reported. */
  method MapToItemRequestItemsDtos(requests: seq<ItemRequest>, items: seq<Item>) returns (r: seq<ItemRequestItemsDto>)
    requires AllOwned(items)
    requires forall k :: 0 <= k < |items| ==> items[k].requestId.Some?
    ensures |r| == |requests|
    ensures forall k :: 0 <= k < |requests| ==> r[k] == WithItems(requests[k], GroupFor(items, requests[k].id))
  {
    var groups := GroupItems(items);
    r := [];
    var j := 0;
    while j < |requests|
      invariant 0 <= j <= |requests|
      invariant |r| == j
      invariant forall k :: 0 <= k < j ==> r[k] == WithItems(requests[k], GroupFor(items, requests[k].id))
    {
      var request := requests[j];
      var group := if request.id in groups then Some(groups[request.id]) else None;
      assert group == GroupFor(items, request.id);
      r := r + [WithItems(request, group)];
      j := j + 1;
    }
  }

  /** Every reported item answers the request it is reported with, and
      every item answering a listed request is reported with it. */
  lemma {:induction false} GroupingIsExact(requests: seq<ItemRequest>, items: seq<Item>, r: seq<ItemRequestItemsDto>, k: nat, i: nat)
    requires AllOwned(items)
    requires |r| == |requests| && k < |requests|
    requires forall j :: 0 <= j < |requests| ==> r[j] == WithItems(requests[j], GroupFor(items, requests[j].id))
    ensures r[k].items.Some? ==> forall d :: d in r[k].items.value ==>
      exists it :: it in items && it.requestId == Some(requests[k].id) && d == MapItemToItemRequestData(it)
    ensures i < |items| && items[i].requestId == Some(requests[k].id) ==>
      r[k].items.Some? && MapItemToItemRequestData(items[i]) in r[k].items.value
  {
    var found := ItemsFor(items, requests[k].id);
    if r[k].items.Some? {
      forall d | d in r[k].items.value
        ensures exists it :: it in items && it.requestId == Some(requests[k].id) && d == MapItemToItemRequestData(it)
      {
        var n :| 0 <= n < |found| && ItemsData(found)[n] == d;
        assert found[n] in items;
      }
    }
    if i < |items| && items[i].requestId == Some(requests[k].id) {
      var n :| 0 <= n < |found| && found[n] == items[i];
      assert ItemsData(found)[n] == MapItemToItemRequestData(items[i]);
    }
  }
}
