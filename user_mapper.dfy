/** Conversions between users and their transfer objects. */
module UserMapper {
  import opened Sequences
  import opened Users

  /** mapToDto: id, email and name copied. */
  function MapToDto(u: User): (d: UserDto)
    ensures d.id == u.id && d.email == u.email && d.name == u.name
  {
    UserDto(u.id, u.email, u.name)
  }

  /** mapToUser: id, email and name copied. */
  function MapToUser(d: UserDto): (u: User)
    ensures u.id == d.id && u.email == d.email && u.name == d.name
  {
    User(d.id, d.email, d.name)
  }

  /** mapToDtos: a stream map. */
  function MapToDtos(us: seq<User>): (ds: seq<UserDto>)
    ensures |ds| == |us|
    ensures forall k :: 0 <= k < |us| ==> ds[k] == MapToDto(us[k])
  {
    MapSeq(us, MapToDto)
  }

  /** mapToUsers: a stream map. */
  function MapToUsers(ds: seq<UserDto>): (us: seq<User>)
    ensures |us| == |ds|
    ensures forall k :: 0 <= k < |ds| ==> us[k] == MapToUser(ds[k])
  {
    MapSeq(ds, MapToUser)
  }

  /** The two mappings are inverse to each other. */
  lemma RoundTrip(u: User, d: UserDto)
    ensures MapToUser(MapToDto(u)) == u
    ensures MapToDto(MapToUser(d)) == d
  {
  }

  /** So are their list versions. */
  lemma {:induction false} ListRoundTrip(us: seq<User>, ds: seq<UserDto>)
    ensures MapToUsers(MapToDtos(us)) == us
    ensures MapToDtos(MapToUsers(ds)) == ds
  {
    var a := MapToUsers(MapToDtos(us));
    forall k | 0 <= k < |us| ensures a[k] == us[k] {
      RoundTrip(us[k], MapToDto(us[k]));
    }
    var b := MapToDtos(MapToUsers(ds));
    forall k | 0 <= k < |ds| ensures b[k] == ds[k] {
      RoundTrip(MapToUser(ds[k]), ds[k]);
    }
  }
}
