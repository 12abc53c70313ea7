/** The persisted entities (`com.openclassrooms.starterjwt.models`), restricted to the fields the mappers read or write. */
module Models {
  import opened Nullable
  import opened JavaTypes

  datatype Teacher = Teacher(
    id: Id,
    lastName: Str,
    firstName: Str,
    createdAt: Option<Date>,
    updatedAt: Option<Date>)

  datatype User = User(
    id: Id,
    email: Str,
    lastName: Str,
    firstName: Str,
    admin: bool,
    password: Str,
    createdAt: Option<Date>,
    updatedAt: Option<Date>)

  /** A session: its teacher and its member list are references that may be null. */
  datatype Session = Session(
    id: Id,
    name: Str,
    date: Option<Date>,
    description: Str,
    teacher: Option<Teacher>,
    users: Option<seq<User>>,
    createdAt: Option<Date>,
    updatedAt: Option<Date>)
}

/** The wire-level transfer objects (`com.openclassrooms.starterjwt.dto`). */
module Dtos {
  import opened Nullable
  import opened JavaTypes

  datatype TeacherDto = TeacherDto(
    id: Id,
    lastName: Str,
    firstName: Str,
    createdAt: Option<Date>,
    updatedAt: Option<Date>)

  datatype UserDto = UserDto(
    id: Id,
    email: Str,
    lastName: Str,
    firstName: Str,
    admin: bool,
    password: Str,
    createdAt: Option<Date>,
    updatedAt: Option<Date>)

  /** A session on the wire: the teacher is referred to by id, the members by a list of ids. */
  datatype SessionDto = SessionDto(
    id: Id,
    name: Str,
    date: Option<Date>,
    teacher_id: Id,
    description: Str,
    users: Option<seq<Id>>,
    createdAt: Option<Date>,
    updatedAt: Option<Date>)
}

/** `TeacherService.findById` and `UserService.findById`: lookups by id that give null for an unknown id. */
module Services {
  import opened Nullable
  import opened JavaTypes

  /** What a service can find: the stored entity for each known id. */
  type Directory<T> = map<Id, T>

  function FindById<T>(directory: Directory<T>, id: Id): (r: Option<T>)
    ensures r.Some? <==> id in directory
    ensures r.Some? ==> r.value == directory[id]
  {
    if id in directory then Some(directory[id]) else None
  }

  /** Every entry is stored under its own id, as a repository keyed by primary key is. */
  ghost predicate KeyedById<T>(directory: Directory<T>, idOf: T -> Id)
  {
    forall k :: k in directory ==> idOf(directory[k]) == k
  }
}
