/** `UserMapperImpl`: field-by-field copies between `User` and `UserDto`; the password travels in both directions. */
module UserMapper {
  import opened Nullable
  import opened JavaTypes
  import opened Models
  import opened Dtos
  import Streams

  /** `toDto(User)`: null stays null; otherwise all eight fields, the password included, are copied. */
  function ToDto(user: Option<User>): (r: Option<UserDto>)
    ensures r.None? <==> user.None?
    ensures user.Some? ==>
      var u, d := user.value, r.value;
      d.id == u.id && d.email == u.email && d.lastName == u.lastName && d.firstName == u.firstName
      && d.admin == u.admin && d.password == u.password
      && d.createdAt == u.createdAt && d.updatedAt == u.updatedAt
  {
    match user
    case None => None
    case Some(u) => Some(UserDto(u.id, u.email, u.lastName, u.firstName, u.admin, u.password, u.createdAt, u.updatedAt))
  }

  /** `toDto(List<User>)`: null stays null; otherwise the same length, element i mapped by `ToDto`. */
  function ToDtoList(users: Option<seq<Option<User>>>): (r: Option<seq<Option<UserDto>>>)
    ensures r.None? <==> users.None?
    ensures users.Some? ==> |r.value| == |users.value|
    ensures users.Some? ==> forall i :: 0 <= i < |users.value| ==> r.value[i] == ToDto(users.value[i])
  {
    Streams.MapOrNull(ToDto, users)
  }

  /** `toEntity(UserDto)`: null stays null; otherwise id, email, both names, the admin flag and the
      password are copied, and the timestamps keep whatever a freshly constructed `User` (`blank`) holds. */
  function ToEntity(userDto: Option<UserDto>, blank: User): (r: Option<User>)
    ensures r.None? <==> userDto.None?
    ensures userDto.Some? ==>
      var d, u := userDto.value, r.value;
      u.id == d.id && u.email == d.email && u.lastName == d.lastName && u.firstName == d.firstName
      && u.admin == d.admin && u.password == d.password
      && u.createdAt == blank.createdAt && u.updatedAt == blank.updatedAt
  {
    match userDto
    case None => None
    case Some(d) =>
      Some(blank.(id := d.id, email := d.email, lastName := d.lastName, firstName := d.firstName,
                  admin := d.admin, password := d.password))
  }

  /** `toEntity(List<UserDto>)`: null stays null; otherwise the same length, element i mapped by `ToEntity`. */
  function ToEntityList(dtoList: Option<seq<Option<UserDto>>>, blank: User): (r: Option<seq<Option<User>>>)
    ensures r.None? <==> dtoList.None?
    ensures dtoList.Some? ==> |r.value| == |dtoList.value|
    ensures dtoList.Some? ==> forall i :: 0 <= i < |dtoList.value| ==> r.value[i] == ToEntity(dtoList.value[i], blank)
  {
    Streams.MapOrNull((d: Option<UserDto>) => ToEntity(d, blank), dtoList)
  }

  /** A user as it comes back from a round trip: everything but the timestamps survives. */
  function WithoutTimestamps(u: User, blank: User): User
  {
    u.(createdAt := blank.createdAt, updatedAt := blank.updatedAt)
  }

  /** Entity to transfer object and back: id, email, both names, the admin flag and the password
      survive; only the two timestamps are lost, and null stays null. */
  lemma EntityRoundTrip(user: Option<User>, blank: User)
    ensures user.None? ==> ToEntity(ToDto(user), blank).None?
    ensures user.Some? ==> ToEntity(ToDto(user), blank) == Some(WithoutTimestamps(user.value, blank))
  {
  }

  /** Transfer object to entity and back: every field survives except the two timestamps. */
  lemma DtoRoundTrip(userDto: UserDto, blank: User)
    ensures ToDto(ToEntity(Some(userDto), blank))
         == Some(userDto.(createdAt := blank.createdAt, updatedAt := blank.updatedAt))
  {
  }

  /** Entity list to transfer objects and back: a null list stays null; otherwise length and order are
      kept, element i comes back as element i of the input stripped of its timestamps, and a null
      element stays null. */
  lemma ListRoundTrip(users: Option<seq<Option<User>>>, blank: User)
    ensures var back := ToEntityList(ToDtoList(users), blank);
      (back.None? <==> users.None?)
      && (users.Some? ==>
           && |back.value| == |users.value|
           && forall i :: 0 <= i < |users.value| ==>
                (users.value[i].None? ==> back.value[i].None?)
                && (users.value[i].Some? ==> back.value[i] == Some(WithoutTimestamps(users.value[i].value, blank))))
  {
  }

  /** Transfer-object list to entities and back: a null list stays null; otherwise length and order are
      kept, element i comes back as element i of the input with the fresh object's timestamps, and a
      null element stays null. */
  lemma DtoListRoundTrip(dtoList: Option<seq<Option<UserDto>>>, blank: User)
    ensures var back := ToDtoList(ToEntityList(dtoList, blank));
      (back.None? <==> dtoList.None?)
      && (dtoList.Some? ==>
           && |back.value| == |dtoList.value|
           && forall i :: 0 <= i < |dtoList.value| ==>
                (dtoList.value[i].None? ==> back.value[i].None?)
                && (dtoList.value[i].Some? ==>
                      back.value[i] == Some(dtoList.value[i].value.(createdAt := blank.createdAt, updatedAt := blank.updatedAt))))
  {
  }
}
