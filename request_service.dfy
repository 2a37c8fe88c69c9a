/** The item request service: creating a request, a user's own requests
    with the items offered for them, the requests of other users, and one
    request with its items. The request table is the service's state; the
    user and item tables it only reads are passed in, as is the instant
    `now` a new request is stamped with. */
module ItemRequests {
  import opened Common
  import opened Sequences
  import opened Users
  import opened Items
  import opened Requests
  import opened ItemRequestMapper
  import UserAccounts

  /** The request has a requestor and it is the user (the query
      "requestor_id = ?", which a null requestor never satisfies). */
  predicate RequestedBy(q: ItemRequest, userId: int)
  {
    q.requestor.Some? && q.requestor.value.id == userId
  }

  /** The request has a requestor and it is not the user (the query
      "requestor_id <> ?", which a null requestor never satisfies). */
  predicate RequestedByOther(q: ItemRequest, userId: int)
  {
    q.requestor.Some? && q.requestor.value.id != userId
  }

  /** findAllByRequestorIdOrderByCreatedDesc: the user's requests, newest
      first. */
  function RequestsOf(requests: seq<ItemRequest>, userId: int): (r: seq<ItemRequest>)
    ensures SortedDesc(r, CreatedOf)
    ensures forall k :: 0 <= k < |r| ==> r[k] in requests && RequestedBy(r[k], userId)
    ensures forall q :: q in requests && RequestedBy(q, userId) ==> q in r
  {
    var mine := Filter(requests, (q: ItemRequest) => RequestedBy(q, userId));
    SortDescSameElements(mine, CreatedOf);
    SortDesc(mine, CreatedOf)
  }

  /** findAllByRequestorIdNotOrderByCreatedDesc: the requests of every
      other requestor, newest first; requests without a requestor are not
      among them. */
  function RequestsOfOthers(requests: seq<ItemRequest>, userId: int): (r: seq<ItemRequest>)
    ensures SortedDesc(r, CreatedOf)
    ensures forall k :: 0 <= k < |r| ==> r[k] in requests && RequestedByOther(r[k], userId)
    ensures forall q :: q in requests && RequestedByOther(q, userId) ==> q in r
  {
    var others := Filter(requests, (q: ItemRequest) => RequestedByOther(q, userId));
    SortDescSameElements(others, CreatedOf);
    SortDesc(others, CreatedOf)
  }

  /** getRequestIds: the ids of the requests, in order. */
  function RequestIds(requests: seq<ItemRequest>): (r: seq<int>)
    ensures |r| == |requests|
    ensures forall k :: 0 <= k < |requests| ==> r[k] == requests[k].id
  {
    MapSeq(requests, (q: ItemRequest) => q.id)
  }

  /** The item answers a request whose id is listed. */
  predicate AnswersOneOf(item: Item, ids: seq<int>)
  {
    item.requestId.Some? && item.requestId.value in ids
  }

  /** findAllByItemRequestIdIn: the items answering one of the listed
      requests. */
  function ItemsForAny(items: seq<Item>, ids: seq<int>): (r: seq<Item>)
    ensures forall k :: 0 <= k < |r| ==> r[k] in items && AnswersOneOf(r[k], ids)
    ensures forall k :: 0 <= k < |items| && AnswersOneOf(items[k], ids) ==> items[k] in r
    ensures AllOwned(items) ==> AllOwned(r)
  {
    if items == [] then []
    else
      var init := items[..|items| - 1];
      var last := items[|items| - 1];
      var rest := ItemsForAny(init, ids);
      assert items == init + [last];
      assert AllOwned(items) ==> AllOwned(init);
      if AnswersOneOf(last, ids) then rest + [last] else rest
  }

  /** The items answering one of the listed requests are the
      order-keeping filter of the item table. */
  lemma {:induction false} ItemsForAnyIsFilter(items: seq<Item>, ids: seq<int>)
    ensures ItemsForAny(items, ids) == Filter(items, (it: Item) => AnswersOneOf(it, ids))
  {
    var p := (it: Item) => AnswersOneOf(it, ids);
    if items != [] {
      var init := items[..|items| - 1];
      var last := items[|items| - 1];
      ItemsForAnyIsFilter(init, ids);
      assert items == init + [last];
      FilterConcat(init, [last], p);
      assert Filter([last], p) == (if p(last) then [last] else []);
    }
  }

  /** Selecting the items of several requests first does not change which
      items answer one of them, nor their order. */
  lemma {:induction false} ItemsForOfSelection(items: seq<Item>, ids: seq<int>, requestId: int)
    requires requestId in ids
    ensures ItemsFor(ItemsForAny(items, ids), requestId) == ItemsFor(items, requestId)
  {
    if items != [] {
      var init := items[..|items| - 1];
      var last := items[|items| - 1];
      var rest := ItemsForAny(init, ids);
      assert items == init + [last];
      assert ItemsForAny(items, ids) == if AnswersOneOf(last, ids) then rest + [last] else rest;
      ItemsForOfSelection(init, ids, requestId);
      ItemsForSnoc(init, last, requestId);
      if AnswersOneOf(last, ids) {
        ItemsForSnoc(rest, last, requestId);
      } else {
        assert last.requestId != Some(requestId);
      }
    }
  }

  /** An item that answers none of the requests is in no group; the
      grouped mapping of the selected items puts in each request's group
      what it would put there from all items. */
  lemma GroupOfSelection(items: seq<Item>, ids: seq<int>, requestId: int)
    requires AllOwned(items) && requestId in ids
    ensures GroupFor(ItemsForAny(items, ids), requestId) == GroupFor(items, requestId)
  {
    ItemsForOfSelection(items, ids, requestId);
    if GroupFor(items, requestId).Some? {
      var found := ItemsFor(items, requestId);
      assert found[0] in ItemsForAny(items, ids);
    }
  }

  class ItemRequestService {
    var requests: seq<ItemRequest>
    var nextId: int

    ghost predicate Valid()
      reads this
    {
      && nextId >= 1
      && (forall k :: 0 <= k < |requests| ==> 1 <= requests[k].id < nextId)
      && (forall i, j :: 0 <= i < j < |requests| ==> requests[i].id != requests[j].id)
    }

    constructor ()
      ensures Valid() && requests == [] && nextId == 1
    {
      requests := [];
      nextId := 1;
    }

    /** getItemRequestById: the stored request with the id, or NotFound. */
    function GetItemRequestById(requestId: int): (r: Result<ItemRequest>)
      reads this
      ensures r.Ok? <==> exists k :: 0 <= k < |requests| && requests[k].id == requestId
      ensures r.Ok? ==> r.value in requests && r.value.id == requestId
      ensures r.Err? ==> r.error == NotFound
    {
      match IndexOfRequest(requests, requestId)
      case None => Err(NotFound)
      case Some(k) => Ok(requests[k])
    }

    /** createItemRequest: an unknown requestor is NotFound and nothing is
        saved; otherwise a request with the description, the requestor and
        the creation instant `now` is saved under the next identity value
        and returned as a DTO. */
    method CreateItemRequest(requestorId: int, dto: ItemRequestCreateDto, users: seq<User>, now: Instant)
      returns (r: Result<ItemRequestDto>)
      requires Valid()
      modifies this
      ensures Valid()
      ensures UserAccounts.IndexOfUser(users, requestorId).None? ==>
        r == Err(NotFound) && requests == old(requests) && nextId == old(nextId)
      ensures UserAccounts.IndexOfUser(users, requestorId).Some? ==>
        var saved := MapToItemRequest(dto, users[UserAccounts.IndexOfUser(users, requestorId).value], now).(id := old(nextId));
        && requests == old(requests) + [saved]
        && nextId == old(nextId) + 1
        && r == Ok(MapToItemRequestDto(saved))
        && r.value.requestorId == Some(requestorId)
    {
      var found := UserAccounts.IndexOfUser(users, requestorId);
      if found.None? {
        return Err(NotFound);
      }
      var saved := MapToItemRequest(dto, users[found.value], now).(id := nextId);
      requests := requests + [saved];
      nextId := nextId + 1;
      r := Ok(MapToItemRequestDto(saved));
    }

    /** findUserItemRequests: an unknown user is NotFound; otherwise the
        user's requests, newest first, each with the data of the items
        answering it in table order, or a null list when none does. */
    method FindUserItemRequests(requestorId: int, users: seq<User>, items: seq<Item>)
      returns (r: Result<seq<ItemRequestItemsDto>>)
      requires AllOwned(items)
      ensures r.Err? <==> UserAccounts.IndexOfUser(users, requestorId).None?
      ensures r.Err? ==> r.error == NotFound
      ensures r.Ok? ==>
        var mine := RequestsOf(requests, requestorId);
        && |r.value| == |mine|
        && forall k :: 0 <= k < |mine| ==> r.value[k] == WithItems(mine[k], GroupFor(items, mine[k].id))
    {
      if UserAccounts.IndexOfUser(users, requestorId).None? {
        return Err(NotFound);
      }
      var mine := RequestsOf(requests, requestorId);
      var ids := RequestIds(mine);
      var offered := ItemsForAny(items, ids);
      var dtos := MapToItemRequestItemsDtos(mine, offered);
      forall k | 0 <= k < |mine| ensures dtos[k] == WithItems(mine[k], GroupFor(items, mine[k].id)) {
        assert ids[k] == mine[k].id;
        GroupOfSelection(items, ids, mine[k].id);
      }
      r := Ok(dtos);
    }

    /** findRequestsOfAnotherUser: an unknown user is NotFound; otherwise
        the requests of every other requestor, newest first, as DTOs. */
    method FindRequestsOfAnotherUser(userId: int, users: seq<User>) returns (r: Result<seq<ItemRequestDto>>)
      ensures r.Err? <==> UserAccounts.IndexOfUser(users, userId).None?
      ensures r.Err? ==> r.error == NotFound
      ensures r.Ok? ==> r.value == MapToItemRequestDtos(RequestsOfOthers(requests, userId))
      ensures r.Ok? ==> forall k :: 0 <= k < |r.value| ==>
        r.value[k].requestorId.Some? && r.value[k].requestorId.value != userId
      ensures r.Ok? ==> forall i, j :: 0 <= i < j < |r.value| ==> r.value[i].created >= r.value[j].created
    {
      if UserAccounts.IndexOfUser(users, userId).None? {
        return Err(NotFound);
      }
      var others := RequestsOfOthers(requests, userId);
      r := Ok(MapToItemRequestDtos(others));
    }

    /** findItemRequestById: an unknown request is NotFound; otherwise the
        request with the data of every item answering it, in table order
        (an empty list when there is none). */
    method FindItemRequestById(requestId: int, items: seq<Item>) returns (r: Result<ItemRequestItemsDto>)
      requires AllOwned(items)
      ensures r.Err? <==> GetItemRequestById(requestId).Err?
      ensures r.Err? ==> r.error == NotFound
      ensures r.Ok? ==>
        && r.value == MapToItemRequestItemsDto(GetItemRequestById(requestId).value, ItemsFor(items, requestId))
        && r.value.id == requestId && r.value.items.Some?
    {
      var found := GetItemRequestById(requestId);
      if found.Err? {
        return Err(found.error);
      }
      r := Ok(MapToItemRequestItemsDto(found.value, ItemsFor(items, requestId)));
    }
  }
}
