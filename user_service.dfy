/** The user service over the users table: lookup, listing, creation
    with a unique email, partial update and deletion. The table is the
    sequence of rows in insertion order; new rows get the next identity
    value. */
module UserAccounts {
  import opened Common
  import opened Sequences
  import opened Users
  import opened UserMapper

  /** existsByEmail: some row has this email; a null email matches no
      row. */
  predicate EmailExists(table: seq<User>, email: Option<string>)
  {
    email.Some? && exists k :: 0 <= k < |table| && table[k].email == email.value
  }

  predicate EmailsUnique(table: seq<User>)
  {
    forall i, j :: 0 <= i < j < |table| ==> table[i].email != table[j].email
  }

  predicate IdsUnique(table: seq<User>)
  {
    forall i, j :: 0 <= i < j < |table| ==> table[i].id != table[j].id
  }

  /** findById on the table: position of the row with that id. */
  function IndexOfUser(table: seq<User>, id: int): (r: Option<nat>)
    ensures r.Some? ==> r.value < |table| && table[r.value].id == id
    ensures r.None? ==> forall k :: 0 <= k < |table| ==> table[k].id != id
  {
    IndexOfKey(table, (u: User) => u.id, id)
  }

  /** The table without row k (deleteById). */
  function RemoveAt(table: seq<User>, k: nat): (r: seq<User>)
    requires k < |table|
    ensures |r| == |table| - 1
    ensures forall i :: 0 <= i < k ==> r[i] == table[i]
    ensures forall i :: k <= i < |r| ==> r[i] == table[i + 1]
  {
    table[..k] + table[k + 1..]
  }

  /** updateUser on the table: the email is checked first (even against
      the user's own row), then the user is looked up, then the non-null
      fields are applied. */
  function UpdateDecision(table: seq<User>, id: int, upd: UpdateUser): (r: Result<User>)
    ensures EmailExists(table, upd.email) ==> r == Err(DuplicateEmail)
    ensures !EmailExists(table, upd.email) && IndexOfUser(table, id).None? ==> r == Err(NotFound)
    ensures !EmailExists(table, upd.email) && IndexOfUser(table, id).Some? ==> r.Ok?
    ensures r.Ok? ==>
      && IndexOfUser(table, id).Some?
      && r.value == ApplyUpdate(table[IndexOfUser(table, id).value], upd)
  {
    if EmailExists(table, upd.email) then Err(DuplicateEmail)
    else match IndexOfUser(table, id)
      case None => Err(NotFound)
      case Some(k) => Ok(ApplyUpdate(table[k], upd))
  }

  /** Checking the email before the user means an unknown id with a taken
      email reports the duplicate email, and a user cannot "update" to
      the email it already has. */
  lemma UpdateEmailCheckedFirst(table: seq<User>, id: int, upd: UpdateUser, k: nat)
    requires k < |table| && upd.email == Some(table[k].email)
    ensures UpdateDecision(table, id, upd) == Err(DuplicateEmail)
    ensures UpdateDecision(table, table[k].id, upd) == Err(DuplicateEmail)
  {
  }

  /** A successful update keeps emails unique and ids unchanged. */
  lemma {:induction false} UpdateKeepsUnique(table: seq<User>, id: int, upd: UpdateUser)
    requires EmailsUnique(table) && IdsUnique(table)
    ensures var r := UpdateDecision(table, id, upd);
      r.Ok? ==>
        var after := table[IndexOfUser(table, id).value := r.value];
        EmailsUnique(after) && IdsUnique(after)
  {
    var r := UpdateDecision(table, id, upd);
    if r.Ok? {
      var k := IndexOfUser(table, id).value;
      var after := table[k := r.value];
      forall i, j | 0 <= i < j < |after| ensures after[i].email != after[j].email {
        if i == k || j == k {
          var o := if i == k then j else i;
          if upd.email.Some? {
            assert table[o].email != upd.email.value;
          }
        }
      }
    }
  }

  /** Removing a row keeps emails and ids unique. */
  lemma {:induction false} RemoveKeepsUnique(table: seq<User>, k: nat)
    requires k < |table| && EmailsUnique(table) && IdsUnique(table)
    ensures EmailsUnique(RemoveAt(table, k)) && IdsUnique(RemoveAt(table, k))
  {
    var r := RemoveAt(table, k);
    forall i, j | 0 <= i < j < |r| ensures r[i].email != r[j].email && r[i].id != r[j].id {
      var i' := if i < k then i else i + 1;
      var j' := if j < k then j else j + 1;
      assert r[i] == table[i'] && r[j] == table[j'];
    }
  }

  class UserService {
    var table: seq<User>
    var nextId: int

    ghost predicate Valid()
      reads this
    {
      && nextId >= 1
      && (forall k :: 0 <= k < |table| ==> 1 <= table[k].id < nextId)
      && IdsUnique(table)
      && EmailsUnique(table)
    }

    constructor ()
      ensures Valid() && table == [] && nextId == 1
    {
      table := [];
      nextId := 1;
    }

    /** getUserById. */
    function GetUserById(id: int): (r: Result<UserDto>)
      reads this
      ensures r.Err? <==> forall k :: 0 <= k < |table| ==> table[k].id != id
      ensures r.Err? ==> r.error == NotFound
      ensures r.Ok? ==> r.value.id == id && MapToUser(r.value) in table
    {
      match IndexOfUser(table, id)
      case None => Err(NotFound)
      case Some(k) => Ok(MapToDto(table[k]))
    }

    /** getUsers: every row, in table order. */
    function GetUsers(): (r: seq<UserDto>)
      reads this
      ensures MapToUsers(r) == table
    {
      ListRoundTrip(table, []);
      MapToDtos(table)
    }

    /** createUser: refused when the email exists; otherwise one row is
        appended under the next identity value. */
    method CreateUser(dto: UserDto) returns (r: Result<UserDto>)
      requires Valid()
      modifies this
      ensures Valid()
      ensures EmailExists(old(table), Some(dto.email)) ==>
        r == Err(DuplicateEmail) && table == old(table) && nextId == old(nextId)
      ensures !EmailExists(old(table), Some(dto.email)) ==>
        && table == old(table) + [MapToUser(dto).(id := old(nextId))]
        && nextId == old(nextId) + 1
        && r == Ok(dto.(id := old(nextId)))
    {
      if EmailExists(table, Some(dto.email)) {
        return Err(DuplicateEmail);
      }
      var user := MapToUser(dto).(id := nextId);
      table := table + [user];
      nextId := nextId + 1;
      r := Ok(MapToDto(user));
    }

    /** updateUser: on success only the user's row changes. */
    method UpdateUser(id: int, upd: UpdateUser) returns (r: Result<UserDto>)
      requires Valid()
      modifies this
      ensures Valid()
      ensures nextId == old(nextId)
      ensures var d := UpdateDecision(old(table), id, upd);
        d.Err? ==> r == Err(d.error) && table == old(table)
      ensures var d := UpdateDecision(old(table), id, upd);
        d.Ok? ==>
          && table == old(table)[IndexOfUser(old(table), id).value := d.value]
          && r == Ok(MapToDto(d.value))
    {
      var d := UpdateDecision(table, id, upd);
      if d.Err? {
        return Err(d.error);
      }
      UpdateKeepsUnique(table, id, upd);
      var k := IndexOfUser(table, id).value;
      table := table[k := d.value];
      r := Ok(MapToDto(d.value));
    }

    /** deleteUser: removes the row and returns what it held. */
    method DeleteUser(id: int) returns (r: Result<UserDto>)
      requires Valid()
      modifies this
      ensures Valid()
      ensures nextId == old(nextId)
      ensures IndexOfUser(old(table), id).None? ==> r == Err(NotFound) && table == old(table)
      ensures IndexOfUser(old(table), id).Some? ==>
        var k := IndexOfUser(old(table), id).value;
        && r == Ok(MapToDto(old(table)[k]))
        && table == RemoveAt(old(table), k)
        && forall j :: 0 <= j < |table| ==> table[j].id != id
    {
      var found := IndexOfUser(table, id);
      if found.None? {
        return Err(NotFound);
      }
      var k := found.value;
      RemoveKeepsUnique(table, k);
      r := Ok(MapToDto(table[k]));
      var before := table;
      table := RemoveAt(table, k);
      forall j | 0 <= j < |table| ensures table[j].id != id {
        var j' := if j < k then j else j + 1;
        assert table[j] == before[j'] && j' != k;
      }
    }
  }
}
