/** The user record, its transfer object, and the partial update
    applied by the user service. */
module Users {
  import opened Common

  datatype User = User(id: int, email: string, name: string)

  datatype UserDto = UserDto(id: int, email: string, name: string)

  /** A partial update: a null field keeps the stored value. */
  datatype UpdateUser = UpdateUser(email: Option<string>, name: Option<string>)

  /** updateUsersFields: overwrite the non-null fields of the update. */
  function ApplyUpdate(u: User, upd: UpdateUser): (r: User)
    ensures r.id == u.id
    ensures r.email == (if upd.email.Some? then upd.email.value else u.email)
    ensures r.name == (if upd.name.Some? then upd.name.value else u.name)
  {
    var withEmail := if upd.email.Some? then u.(email := upd.email.value) else u;
    if upd.name.Some? then withEmail.(name := upd.name.value) else withEmail
  }

  /** Applying the same update twice is applying it once, and an update
      with no fields changes nothing. */
  lemma ApplyUpdateIdempotent(u: User, upd: UpdateUser)
    ensures ApplyUpdate(ApplyUpdate(u, upd), upd) == ApplyUpdate(u, upd)
    ensures ApplyUpdate(u, UpdateUser(None, None)) == u
  {
  }
}
