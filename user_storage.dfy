/** The in-memory user repository: a hash map from id to user and an id
    counter starting at 1. */
module InMemoryUsers {
  import opened Common
  import opened Users
  import opened MapIteration

  /** The anyMatch of createUser: some stored user has this email
      (case-sensitive String.equals). */
  predicate EmailInUse(users: map<int, User>, email: string)
  {
    exists k :: k in users && users[k].email == email
  }

  /** The anyMatch of updateUser as written: a stored user equal to the
      argument (User equality compares id, email and name) whose id
      differs from the argument's. */
  predicate UpdateConflictAsWritten(users: map<int, User>, user: User)
  {
    exists k :: k in users && users[k] == user && users[k].id != user.id
  }

  /** The test updateUser evidently means: another user holds the email. */
  predicate EmailHeldByOther(users: map<int, User>, user: User)
  {
    exists k :: k in users && users[k].email == user.email && users[k].id != user.id
  }

  /** Every user is stored under its own id. */
  predicate KeysAreIds(users: map<int, User>)
  {
    forall k :: k in users ==> users[k].id == k
  }

  /** No two stored users share an email. */
  predicate EmailsDistinct(users: map<int, User>)
  {
    forall i, j :: i in users && j in users && i != j ==> users[i].email != users[j].email
  }

  /** Every stored id is below the counter, so the counter's next value is
      free. */
  predicate KeysBelow(users: map<int, User>, next: int)
  {
    forall k :: k in users ==> k < next
  }

  /** The update conflict test as written can never hold: an equal user
      has the same id. */
  lemma UpdateConflictNeverHolds(users: map<int, User>, user: User)
    ensures !UpdateConflictAsWritten(users, user)
  {
  }

  /** So updateUser lets a user take another user's email: two users with
      different emails, the second updated to the first one's email. */
  lemma UpdateAllowsDuplicateEmail()
    ensures var users := map[1 := User(1, "a@x", "Ann"), 2 := User(2, "b@x", "Bob")];
      var user := User(2, "a@x", "Bob");
      && EmailsDistinct(users) && KeysAreIds(users)
      && !UpdateConflictAsWritten(users, user)
      && !EmailsDistinct(users[user.id := user])
  {
    var users := map[1 := User(1, "a@x", "Ann"), 2 := User(2, "b@x", "Bob")];
    var user := User(2, "a@x", "Bob");
    UpdateConflictNeverHolds(users, user);
    var after := users[user.id := user];
    assert after[1].email == after[2].email;
  }

  /** updateUser with the evidently intended test: refused when another
      user holds the email, otherwise stored under the user's id. */
  function UpdateChecked(users: map<int, User>, user: User): (r: Result<map<int, User>>)
    ensures r.Err? <==> EmailHeldByOther(users, user)
    ensures r.Err? ==> r.error == DuplicateEmail
    ensures r.Ok? ==> r.value == users[user.id := user]
  {
    if EmailHeldByOther(users, user) then Err(DuplicateEmail) else Ok(users[user.id := user])
  }

  /** The checked update keeps emails distinct and users under their ids. */
  lemma {:induction false} UpdateCheckedKeepsEmailsDistinct(users: map<int, User>, user: User)
    requires EmailsDistinct(users) && KeysAreIds(users)
    ensures UpdateChecked(users, user).Ok? ==>
      EmailsDistinct(UpdateChecked(users, user).value) && KeysAreIds(UpdateChecked(users, user).value)
  {
    if UpdateChecked(users, user).Ok? {
      var after := users[user.id := user];
      forall i, j | i in after && j in after && i != j ensures after[i].email != after[j].email {
        if i == user.id {
          assert users[j].id == j;
        } else if j == user.id {
          assert users[i].id == i;
        }
      }
    }
  }

  class UserStorage {
    var nextId: int
    var users: map<int, User>

    ghost predicate Valid()
      reads this
    {
      KeysAreIds(users)
    }

    constructor ()
      ensures Valid() && nextId == 1 && users == map[]
    {
      nextId := 1;
      users := map[];
    }

    /** getUserById. */
    function GetUserById(id: int): (r: Result<User>)
      reads this
      ensures r.Ok? <==> id in users
      ensures r.Ok? ==> r.value == users[id]
      ensures r.Err? ==> r.error == NotFound
    {
      if id in users then Ok(users[id]) else Err(NotFound)
    }

    /** createUser: refused when the email is taken; otherwise the user
        gets the counter's value as id and is stored under it. Keeps
        emails distinct and, when every id was below the counter, never
        replaces a stored user. */
    method CreateUser(user: User) returns (r: Result<User>)
      requires Valid()
      modifies this
      ensures Valid()
      ensures EmailInUse(old(users), user.email) ==>
        r == Err(DuplicateEmail) && users == old(users) && nextId == old(nextId)
      ensures !EmailInUse(old(users), user.email) ==>
        && r == Ok(user.(id := old(nextId)))
        && users == old(users)[old(nextId) := user.(id := old(nextId))]
        && nextId == old(nextId) + 1
      ensures old(EmailsDistinct(users)) ==> EmailsDistinct(users)
      ensures old(KeysBelow(users, nextId)) ==> KeysBelow(users, nextId) && (r.Ok? ==> r.value.id !in old(users))
    {
      if EmailInUse(users, user.email) {
        return Err(DuplicateEmail);
      }
      var id := nextId;
      nextId := nextId + 1;
      var stored := user.(id := id);
      users := users[id := stored];
      r := Ok(stored);
    }

    /** getUsers: every stored user once, in the map's iteration order
        (left unspecified). */
    method GetUsers() returns (r: seq<User>)
      requires Valid()
      ensures |r| == |users|
      ensures forall k :: 0 <= k < |r| ==> r[k].id in users && users[r[k].id] == r[k]
      ensures forall k :: k in users ==> users[k] in r
    {
      var keys;
      keys, r := SelectValues(users, (u: User) => true);
      forall k | 0 <= k < |r| ensures r[k].id in users && users[r[k].id] == r[k] {
        assert keys[k] in users && r[k] == users[keys[k]] && users[keys[k]].id == keys[k];
      }
    }

    /** updateUser: its conflict test never holds, so the user is always
        stored under its id, added if absent; the previous user under that
        id is returned (null when there was none). */
    method UpdateUser(user: User) returns (r: Result<Option<User>>)
      requires Valid()
      modifies this
      ensures Valid()
      ensures users == old(users)[user.id := user] && nextId == old(nextId)
      ensures r == Ok(if user.id in old(users) then Some(old(users)[user.id]) else None)
    {
      UpdateConflictNeverHolds(users, user);
      var conflict := UpdateConflictAsWritten(users, user);
      var previous := if user.id in users then Some(users[user.id]) else None;
      users := if conflict then users else users[user.id := user];
      r := if conflict then Err(DuplicateEmail) else Ok(previous);
    }

    /** deleteUser: removes and returns the user; an absent id is
        NotFound and changes nothing. */
    method DeleteUser(id: int) returns (r: Result<User>)
      requires Valid()
      modifies this
      ensures Valid()
      ensures nextId == old(nextId)
      ensures id in old(users) ==> r == Ok(old(users)[id]) && users == old(users) - {id}
      ensures id !in old(users) ==> r == Err(NotFound) && users == old(users)
      ensures old(EmailsDistinct(users)) ==> EmailsDistinct(users)
    {
      if id !in users {
        return Err(NotFound);
      }
      r := Ok(users[id]);
      users := users - {id};
    }
  }
}
