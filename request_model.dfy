/** The item request record: what a user asks to borrow, who asked (the
    requestor reference may be null) and when. */
module Requests {
  import opened Common
  import opened Sequences
  import opened Users

  datatype ItemRequest = ItemRequest(
    id: int,
    description: string,
    requestor: Option<User>,
    created: Instant)

  /** findById on the request table. */
  function IndexOfRequest(table: seq<ItemRequest>, id: int): (r: Option<nat>)
    ensures r.Some? ==> r.value < |table| && table[r.value].id == id
    ensures r.None? ==> forall k :: 0 <= k < |table| ==> table[k].id != id
  {
    IndexOfKey(table, (q: ItemRequest) => q.id, id)
  }

  /** The sort key of "ORDER BY created DESC". */
  function CreatedOf(r: ItemRequest): Instant { r.created }
}
