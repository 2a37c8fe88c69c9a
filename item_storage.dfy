/** The in-memory item repository: a hash map from id to item, an id
    counter starting at 1, and the user repository it takes owners from. */
module InMemoryItems {
  import opened Common
  import opened Text
  import opened Users
  import opened Items
  import opened MapIteration
  import opened InMemoryUsers

  /** Every item is stored under its own id. */
  predicate KeysAreItemIds(items: map<int, Item>)
  {
    forall k :: k in items ==> items[k].id == k
  }

  /** Every stored item has an owner. */
  predicate AllStoredOwned(items: map<int, Item>)
  {
    forall k :: k in items ==> items[k].owner.Some?
  }

  /** Every stored id is below the counter. */
  predicate ItemKeysBelow(items: map<int, Item>, next: int)
  {
    forall k :: k in items ==> k < next
  }

  /** The search test for one token: the lower-cased token occurs in the
      lower-cased name or in the lower-cased description. */
  predicate MatchesToken(item: Item, token: string)
  {
    Contains(ToLower(item.name), ToLower(token)) || Contains(ToLower(item.description), ToLower(token))
  }

  /** The search test of getByQuery: the item is available and some token
      matches it. */
  predicate MatchesQuery(item: Item, tokens: set<string>)
  {
    item.available && exists t :: t in tokens && MatchesToken(item, t)
  }

  /** An empty token set matches no item, and an unavailable item is never
      found; a token that is part of the name always finds an available
      item, whatever the case of the token's ASCII letters. */
  lemma MatchesQueryCases(item: Item, tokens: set<string>, t: string, i: nat)
    ensures tokens == {} ==> !MatchesQuery(item, tokens)
    ensures !item.available ==> !MatchesQuery(item, tokens)
    ensures item.available && t in tokens && OccursAt(ToLower(item.name), ToLower(t), i) ==> MatchesQuery(item, tokens)
  {
    ContainsIffOccurs(ToLower(item.name), ToLower(t));
  }

  class ItemStorage {
    var nextId: int
    var items: map<int, Item>
    const userStorage: UserStorage

    ghost predicate Valid()
      reads this
    {
      KeysAreItemIds(items)
    }

    constructor (userStorage: UserStorage)
      ensures Valid() && nextId == 1 && items == map[] && this.userStorage == userStorage
    {
      nextId := 1;
      items := map[];
      this.userStorage := userStorage;
    }

    /** createItem: an unknown owner is NotFound and changes nothing;
        otherwise the item gets the counter's value as id and the user as
        owner, and is stored under the id. When every id was below the
        counter, no stored item is replaced. */
    method CreateItem(userId: int, item: Item) returns (r: Result<Item>)
      requires Valid()
      modifies this
      ensures Valid()
      ensures userStorage.GetUserById(userId).Err? ==>
        r == Err(NotFound) && items == old(items) && nextId == old(nextId)
      ensures userStorage.GetUserById(userId).Ok? ==>
        && r == Ok(item.(id := old(nextId), owner := Some(userStorage.GetUserById(userId).value)))
        && items == old(items)[old(nextId) := r.value]
        && nextId == old(nextId) + 1
      ensures old(AllStoredOwned(items)) ==> AllStoredOwned(items)
      ensures old(ItemKeysBelow(items, nextId)) ==> ItemKeysBelow(items, nextId) && (r.Ok? ==> r.value.id !in old(items))
    {
      var user := userStorage.GetUserById(userId);
      if user.Err? {
        return Err(NotFound);
      }
      var id := nextId;
      nextId := nextId + 1;
      var stored := item.(id := id, owner := Some(user.value));
      items := items[id := stored];
      r := Ok(stored);
    }

    /** updateItem: the item is stored under its id; the item held there
        before is returned (null when there was none). */
    method UpdateItem(item: Item) returns (previous: Option<Item>)
      requires Valid()
      modifies this
      ensures Valid()
      ensures items == old(items)[item.id := item] && nextId == old(nextId)
      ensures previous == if item.id in old(items) then Some(old(items)[item.id]) else None
    {
      previous := if item.id in items then Some(items[item.id]) else None;
      items := items[item.id := item];
    }

    /** getItemById. */
    function GetItemById(id: int): (r: Result<Item>)
      reads this
      ensures r.Ok? <==> id in items
      ensures r.Ok? ==> r.value == items[id]
      ensures r.Err? ==> r.error == NotFound
    {
      if id in items then Ok(items[id]) else Err(NotFound)
    }

    /** getAllUsersItems: every stored item whose owner has the id, each
        once, in the map's iteration order. The owner's id is read without
        a null check, so every stored item must have an owner. */
    method GetAllUsersItems(userId: int) returns (r: seq<Item>)
      requires Valid() && AllStoredOwned(items)
      ensures forall k :: 0 <= k < |r| ==> r[k].id in items && items[r[k].id] == r[k] && OwnedBy(r[k], userId)
      ensures forall i, j :: 0 <= i < j < |r| ==> r[i].id != r[j].id
      ensures forall k :: k in items && OwnedBy(items[k], userId) ==> items[k] in r
    {
      var keys;
      keys, r := SelectValues(items, (item: Item) => OwnedBy(item, userId));
      ValuesCarryKeys(keys, r);
    }

    /** getByQuery: every stored item that is available and matched by
        some token, each once, in the map's iteration order. */
    method GetByQuery(tokens: set<string>) returns (r: seq<Item>)
      requires Valid()
      ensures forall k :: 0 <= k < |r| ==> r[k].id in items && items[r[k].id] == r[k] && MatchesQuery(r[k], tokens)
      ensures forall i, j :: 0 <= i < j < |r| ==> r[i].id != r[j].id
      ensures forall k :: k in items && MatchesQuery(items[k], tokens) ==> items[k] in r
    {
      var keys;
      keys, r := SelectValues(items, (item: Item) => MatchesQuery(item, tokens));
      ValuesCarryKeys(keys, r);
    }

    /** The items visited under distinct keys carry those keys as ids. */
    lemma ValuesCarryKeys(keys: seq<int>, r: seq<Item>)
      requires Valid() && |keys| == |r|
      requires forall i :: 0 <= i < |keys| ==> keys[i] in items && r[i] == items[keys[i]]
      requires forall i, j :: 0 <= i < j < |keys| ==> keys[i] != keys[j]
      ensures forall k :: 0 <= k < |r| ==> r[k].id == keys[k] && r[k].id in items && items[r[k].id] == r[k]
      ensures forall i, j :: 0 <= i < j < |r| ==> r[i].id != r[j].id
    {
      forall k | 0 <= k < |r| ensures r[k].id == keys[k] {
        assert items[keys[k]].id == keys[k];
      }
    }

    /** deleteItem: removes the entry; an absent id is NotFound and
        changes nothing. */
    method DeleteItem(id: int) returns (r: Result<()>)
      requires Valid()
      modifies this
      ensures Valid()
      ensures nextId == old(nextId)
      ensures id in old(items) ==> r == Ok(()) && items == old(items) - {id}
      ensures id !in old(items) ==> r == Err(NotFound) && items == old(items)
      ensures old(AllStoredOwned(items)) ==> AllStoredOwned(items)
    {
      if id !in items {
        return Err(NotFound);
      }
      items := items - {id};
      r := Ok(());
    }
  }
}
