/** The item service of the in-memory catalog: creation through the item
    repository, owner-only update and deletion, lookups, and the text
    search with its tokeniser. */
module ItemCatalog {
  import opened Common
  import opened Sequences
  import opened Text
  import opened Users
  import opened Items
  import opened ItemMapper
  import opened InMemoryUsers
  import opened InMemoryItems

  // ---------------------------------------------------------------------------
  // Tokenising a search query

  /** The search tokens of a query: trim it, split it on ',' and '.',
      trim each piece, drop the empty ones and collect them in a set. */
  function Tokens(query: string): (r: set<string>)
    ensures forall t :: t in r ==> t != []
  {
    set p | p in Split(Trim(query)) && Trim(p) != [] :: Trim(p)
  }

  /** Splitting a string without separators gives the string itself. */
  lemma {:induction false} SplitWithoutSeparator(s: string)
    requires NoSeparator(s)
    ensures Split(s) == [s]
  {
    if s != [] {
      assert !IsSeparator(s[0]);
      SplitWithoutSeparator(s[1..]);
      assert [s[0]] + s[1..] == s;
    }
  }

  /** Trimming a trimmed string changes nothing. */
  lemma TrimIdempotent(s: string)
    ensures Trim(Trim(s)) == Trim(s)
  {
    TrimFixedPoint(Trim(s));
  }

  /** Trimming a piece without separators leaves none. */
  lemma TrimKeepsNoSeparator(p: string)
    requires NoSeparator(p)
    ensures NoSeparator(Trim(p))
  {
    var i := TrimStartIndex(p);
    forall k | 0 <= k < |Trim(p)| ensures !IsSeparator(Trim(p)[k]) {
      assert Trim(p)[k] == p[i + k];
    }
  }

  /** Every token is a non-empty piece of the query without separators
      that neither starts nor ends with a character trim removes. */
  lemma TokensAreClean(query: string, t: string)
    requires t in Tokens(query)
    ensures t != [] && NoSeparator(t)
    ensures !IsTrimmed(t[0]) && !IsTrimmed(t[|t| - 1])
  {
    var pieces := Split(Trim(query));
    var p :| p in pieces && Trim(p) != [] && Trim(p) == t;
    var k :| 0 <= k < |pieces| && pieces[k] == p;
    TrimKeepsNoSeparator(p);
  }

  /** A query without separators that is not all trimmed characters is a
      single token: the query trimmed. */
  lemma SingleToken(query: string)
    requires NoSeparator(query) && Trim(query) != []
    ensures Tokens(query) == {Trim(query)}
  {
    TrimKeepsNoSeparator(query);
    SplitWithoutSeparator(Trim(query));
    TrimIdempotent(query);
  }

  /** A query made of separators only is not blank, yet has no token, so
      the search finds nothing. */
  lemma SeparatorsOnlyHaveNoToken()
    ensures !IsBlank(",.")
    ensures Tokens(",.") == {}
  {
    assert !IsWhitespace(",."[0]);
    assert Trim(",.") == ",.";
    assert Split(",.") == [[], [], []];
  }

  class ItemService {
    const storage: ItemStorage

    ghost predicate Valid()
      reads this, storage
    {
      storage.Valid() && AllStoredOwned(storage.items)
    }

    constructor (storage: ItemStorage)
      requires storage.Valid() && AllStoredOwned(storage.items)
      ensures Valid() && this.storage == storage
    {
      this.storage := storage;
    }

    /** The stored item with the id, or null. */
    function Lookup(id: int): (r: Option<Item>)
      reads this, storage
      ensures r.Some? <==> id in storage.items
      ensures r.Some? ==> r.value == storage.items[id]
    {
      if id in storage.items then Some(storage.items[id]) else None
    }

    /** create: the DTO becomes an item, the repository gives it the next
        id and the user as owner (an unknown user is NotFound and nothing
        is stored), and the stored item is returned as a DTO. */
    method Create(userId: int, dto: ItemDto) returns (r: Result<ItemDto>)
      requires Valid()
      modifies storage
      ensures Valid()
      ensures storage.userStorage.GetUserById(userId).Err? ==>
        r == Err(NotFound) && storage.items == old(storage.items) && storage.nextId == old(storage.nextId)
      ensures storage.userStorage.GetUserById(userId).Ok? ==>
        var item := MapToItem(dto).(id := old(storage.nextId), owner := Some(storage.userStorage.GetUserById(userId).value));
        && r == Ok(MapToDto(item))
        && storage.items == old(storage.items)[item.id := item]
        && storage.nextId == old(storage.nextId) + 1
    {
      var item := MapToItem(dto);
      var created := storage.CreateItem(userId, item);
      if created.Err? {
        return Err(created.error);
      }
      r := Ok(MapToDto(created.value));
    }

    /** update: an unknown item is NotFound, a caller who is not the owner
        (or an item without owner) is refused with Permission, and in both
        cases nothing changes; otherwise the non-null fields are applied
        and the item is stored again under its id. */
    method Update(userId: int, itemId: int, upd: UpdateItem) returns (r: Result<ItemDto>)
      requires Valid()
      modifies storage
      ensures Valid()
      ensures storage.nextId == old(storage.nextId)
      ensures var d := UpdateOutcome(old(Lookup(itemId)), userId, upd);
        d.Err? ==> r == Err(d.error) && storage.items == old(storage.items)
      ensures var d := UpdateOutcome(old(Lookup(itemId)), userId, upd);
        d.Ok? ==> r == Ok(MapToDto(d.value)) && storage.items == old(storage.items)[itemId := d.value]
    {
      var d := UpdateOutcome(Lookup(itemId), userId, upd);
      if d.Err? {
        return Err(d.error);
      }
      var _ := storage.UpdateItem(d.value);
      r := Ok(MapToDto(d.value));
    }

    /** getItemById. */
    function GetItemById(id: int): (r: Result<ItemDto>)
      reads this, storage
      ensures r.Err? <==> id !in storage.items
      ensures r.Err? ==> r.error == NotFound
      ensures r.Ok? ==> r.value == MapToDto(storage.items[id])
      ensures r.Ok? && storage.Valid() ==> r.value.id == id
      ensures r.Ok? ==> MapToItem(r.value).(requestId := storage.items[id].requestId) == storage.items[id]
    {
      match storage.GetItemById(id)
      case Err(e) => Err(e)
      case Ok(item) =>
        ItemRoundTrip(item);
        Ok(MapToDto(item))
    }

    /** getAllUsersItems: the user's items as DTOs, each once. */
    method GetAllUsersItems(userId: int) returns (r: seq<ItemDto>)
      requires Valid()
      ensures forall k :: 0 <= k < |r| ==>
        r[k].id in storage.items && r[k] == MapToDto(storage.items[r[k].id]) && OwnedBy(storage.items[r[k].id], userId)
      ensures forall i, j :: 0 <= i < j < |r| ==> r[i].id != r[j].id
      ensures forall k :: k in storage.items && OwnedBy(storage.items[k], userId) ==> MapToDto(storage.items[k]) in r
    {
      var items := storage.GetAllUsersItems(userId);
      r := MapToDtos(items);
      forall k | k in storage.items && OwnedBy(storage.items[k], userId) ensures MapToDto(storage.items[k]) in r {
        var i :| 0 <= i < |items| && items[i] == storage.items[k];
        assert r[i] == MapToDto(items[i]);
      }
    }

    /** getItemsByQuery: a blank query finds nothing without consulting
        the repository; otherwise the available items matched by some
        token of the query, as DTOs, each once. */
    method GetItemsByQuery(query: string) returns (r: seq<ItemDto>)
      requires Valid()
      ensures IsBlank(query) ==> r == []
      ensures !IsBlank(query) ==>
        && (forall k :: 0 <= k < |r| ==>
              r[k].id in storage.items && r[k] == MapToDto(storage.items[r[k].id])
              && MatchesQuery(storage.items[r[k].id], Tokens(query)))
        && (forall i, j :: 0 <= i < j < |r| ==> r[i].id != r[j].id)
        && (forall k :: k in storage.items && MatchesQuery(storage.items[k], Tokens(query)) ==>
              MapToDto(storage.items[k]) in r)
    {
      if IsBlank(query) {
        return [];
      }
      var items := storage.GetByQuery(Tokens(query));
      r := MapToDtos(items);
      forall k | k in storage.items && MatchesQuery(storage.items[k], Tokens(query)) ensures MapToDto(storage.items[k]) in r {
        var i :| 0 <= i < |items| && items[i] == storage.items[k];
        assert r[i] == MapToDto(items[i]);
      }
    }

    /** deleteItem: an unknown item is NotFound and a caller who is not the
        owner is refused with Permission, both changing nothing; otherwise
        the item is removed and returned as it was. */
    method DeleteItem(userId: int, itemId: int) returns (r: Result<ItemDto>)
      requires Valid()
      modifies storage
      ensures Valid()
      ensures storage.nextId == old(storage.nextId)
      ensures var d := DeleteOutcome(old(Lookup(itemId)), userId);
        d.Err? ==> r == Err(d.error) && storage.items == old(storage.items)
      ensures var d := DeleteOutcome(old(Lookup(itemId)), userId);
        d.Ok? ==>
          && r == Ok(MapToDto(old(storage.items)[itemId]))
          && storage.items == old(storage.items) - {itemId}
          && itemId !in storage.items
    {
      var d := DeleteOutcome(Lookup(itemId), userId);
      if d.Err? {
        return Err(d.error);
      }
      var _ := storage.DeleteItem(itemId);
      r := Ok(MapToDto(d.value));
    }
  }
}
