/** `SessionMapperImpl`: between `Session` and `SessionDto`. The teacher becomes its id and the members
    become their ids; going back, both are resolved through the teacher and user lookup services. */
module SessionMapper {
  import opened Nullable
  import opened JavaTypes
  import opened Models
  import opened Dtos
  import opened Services
  import Streams

  /** `users.stream().map(User::getId)`: the members' ids, in member order. */
  function UserIds(users: seq<User>): (ids: seq<Id>)
    ensures |ids| == |users|
    ensures forall i :: 0 <= i < |users| ==> ids[i] == users[i].id
  {
    Streams.Map((u: User) => u.id, users)
  }

  /** `toDto(Session)`: null stays null. Otherwise the plain fields and both timestamps are copied,
      `teacher_id` is the teacher's id when there is a teacher, `users` lists the members' ids when
      there is a member list, and what the mapper does not assign keeps the value a freshly
      constructed `SessionDto` (`blank`) holds. */
  function ToDto(session: Option<Session>, blank: SessionDto): (r: Option<SessionDto>)
    ensures r.None? <==> session.None?
    ensures session.Some? ==>
      var s, d := session.value, r.value;
      && d.id == s.id && d.name == s.name && d.date == s.date && d.description == s.description
      && d.createdAt == s.createdAt && d.updatedAt == s.updatedAt
      && (s.teacher.Some? ==> d.teacher_id == s.teacher.value.id)
      && (s.teacher.None? ==> d.teacher_id == blank.teacher_id)
      && (s.users.Some? ==>
            && d.users.Some? && |d.users.value| == |s.users.value|
            && forall i :: 0 <= i < |s.users.value| ==> d.users.value[i] == s.users.value[i].id)
      && (s.users.None? ==> d.users == blank.users)
  {
    match session
    case None => None
    case Some(s) =>
      var teacherId := if s.teacher.Some? then s.teacher.value.id else blank.teacher_id;
      var userIds := if s.users.Some? then Some(UserIds(s.users.value)) else blank.users;
      Some(SessionDto(s.id, s.name, s.date, teacherId, s.description, userIds, s.createdAt, s.updatedAt))
  }

  /** `toDto(List<Session>)`: null stays null; otherwise the same length, element i mapped by `ToDto`. */
  function ToDtoList(sessions: Option<seq<Option<Session>>>, blank: SessionDto): (r: Option<seq<Option<SessionDto>>>)
    ensures r.None? <==> sessions.None?
    ensures sessions.Some? ==> |r.value| == |sessions.value|
    ensures sessions.Some? ==> forall i :: 0 <= i < |sessions.value| ==> r.value[i] == ToDto(sessions.value[i], blank)
  {
    Streams.MapOrNull((s: Option<Session>) => ToDto(s, blank), sessions)
  }

  /** The users the user service finds for `ids`, in the order of `ids`; an id it cannot find
      contributes nothing. Every user in the result was found for some id of the input. */
  function FoundUsers(ids: seq<Id>, userService: Directory<User>): (found: seq<User>)
    ensures |found| <= |ids|
    ensures forall u :: u in found ==> exists i :: 0 <= i < |ids| && FindById(userService, ids[i]) == Some(u)
  {
    if ids == [] then []
    else
      var rest := FoundUsers(ids[1..], userService);
      assert forall u :: u in rest ==> exists i :: 1 <= i < |ids| && FindById(userService, ids[i]) == Some(u) by {
        forall u | u in rest ensures exists i :: 1 <= i < |ids| && FindById(userService, ids[i]) == Some(u) {
          var j :| 0 <= j < |ids[1..]| && FindById(userService, ids[1..][j]) == Some(u);
          assert ids[j + 1] == ids[1..][j];
        }
      }
      match FindById(userService, ids[0])
      case None => rest
      case Some(u) => [u] + rest
  }

  /** The ids of `ids` that the service knows, in input order. */
  function KnownIds(ids: seq<Id>, userService: Directory<User>): (known: seq<Id>)
    ensures |known| <= |ids|
    ensures forall id :: id in known <==> id in ids && id in userService
  {
    if ids == [] then []
    else if ids[0] in userService then [ids[0]] + KnownIds(ids[1..], userService)
    else KnownIds(ids[1..], userService)
  }

  /** The session `toEntity(SessionDto)` builds. Null stays null. Otherwise id, name, date and
      description are copied; the teacher is the teacher service's answer for `teacher_id` (null for an
      unknown id) when `teacher_id` is not null; the member list is `FoundUsers` of `users` when
      `users` is not null; and what the mapper does not assign (both timestamps always) keeps the value
      a freshly constructed `Session` (`blank`) holds. */
  function EntityOf(sessionDto: Option<SessionDto>, teacherService: Directory<Teacher>,
                    userService: Directory<User>, blank: Session): (r: Option<Session>)
    ensures r.None? <==> sessionDto.None?
    ensures sessionDto.Some? ==>
      var d, s := sessionDto.value, r.value;
      && s.id == d.id && s.name == d.name && s.date == d.date && s.description == d.description
      && s.createdAt == blank.createdAt && s.updatedAt == blank.updatedAt
      && (d.teacher_id.Some? ==> s.teacher == FindById(teacherService, d.teacher_id))
      && (d.teacher_id.None? ==> s.teacher == blank.teacher)
      && (d.users.Some? ==> s.users == Some(FoundUsers(d.users.value, userService)))
      && (d.users.None? ==> s.users == blank.users)
  {
    match sessionDto
    case None => None
    case Some(d) =>
      var teacher := if d.teacher_id.Some? then FindById(teacherService, d.teacher_id) else blank.teacher;
      var users := if d.users.Some? then Some(FoundUsers(d.users.value, userService)) else blank.users;
      Some(Session(d.id, d.name, d.date, d.description, teacher, users, blank.createdAt, blank.updatedAt))
  }

  /** `toEntity(SessionDto)`: builds the member list one id at a time, appending each user the
      service finds and skipping each id it does not. */
  method ToEntity(sessionDto: Option<SessionDto>, teacherService: Directory<Teacher>,
                  userService: Directory<User>, blank: Session) returns (r: Option<Session>)
    ensures r == EntityOf(sessionDto, teacherService, userService, blank)
  {
    if sessionDto.None? {
      return None;
    }
    var d := sessionDto.value;
    var session := blank.(id := d.id, name := d.name, date := d.date, description := d.description);
    if d.teacher_id.Some? {
      var teacher := FindById(teacherService, d.teacher_id);
      session := session.(teacher := teacher);
    }
    if d.users.Some? {
      var ids := d.users.value;
      var users: seq<User> := [];
      for k := 0 to |ids|
        invariant users == FoundUsers(ids[..k], userService)
      {
        var user := FindById(userService, ids[k]);
        FoundUsersAppend(ids[..k], [ids[k]], userService);
        assert ids[..k + 1] == ids[..k] + [ids[k]];
        if user.Some? {
          users := users + [user.value];
        }
      }
      assert ids[..|ids|] == ids;
      session := session.(users := Some(users));
    }
    return Some(session);
  }

  /** `toEntity(List<SessionDto>)`: null stays null; otherwise the same length, element i mapped as
      `ToEntity` maps it. */
  function ToEntityList(dtoList: Option<seq<Option<SessionDto>>>, teacherService: Directory<Teacher>,
                        userService: Directory<User>, blank: Session): (r: Option<seq<Option<Session>>>)
    ensures r.None? <==> dtoList.None?
    ensures dtoList.Some? ==> |r.value| == |dtoList.value|
    ensures dtoList.Some? ==> forall i :: 0 <= i < |dtoList.value| ==>
      r.value[i] == EntityOf(dtoList.value[i], teacherService, userService, blank)
  {
    Streams.MapOrNull((d: Option<SessionDto>) => EntityOf(d, teacherService, userService, blank), dtoList)
  }

  /** Resolving two lists one after the other is resolving their concatenation. */
  lemma {:induction false} FoundUsersAppend(a: seq<Id>, b: seq<Id>, userService: Directory<User>)
    ensures FoundUsers(a + b, userService) == FoundUsers(a, userService) + FoundUsers(b, userService)
  {
    if a == [] {
      assert a + b == b;
    } else {
      assert (a + b)[0] == a[0] && (a + b)[1..] == a[1..] + b;
      FoundUsersAppend(a[1..], b, userService);
    }
  }

  /** Keeping the known ids of two lists one after the other is keeping those of their concatenation,
      so `KnownIds` keeps the input order and every repetition of a known id. */
  lemma {:induction false} KnownIdsAppend(a: seq<Id>, b: seq<Id>, userService: Directory<User>)
    ensures KnownIds(a + b, userService) == KnownIds(a, userService) + KnownIds(b, userService)
  {
    if a == [] {
      assert a + b == b;
    } else {
      assert (a + b)[0] == a[0] && (a + b)[1..] == a[1..] + b;
      KnownIdsAppend(a[1..], b, userService);
    }
  }

  /** Every user the service finds for some id of the input is in the result. */
  lemma {:induction false} FoundUsersComplete(ids: seq<Id>, userService: Directory<User>, i: nat)
    requires i < |ids| && ids[i] in userService
    ensures userService[ids[i]] in FoundUsers(ids, userService)
  {
    if i > 0 {
      assert ids[1..][i - 1] == ids[i];
      FoundUsersComplete(ids[1..], userService, i - 1);
    }
  }

  /** The result is exactly the looked-up users of the known ids, in input order: one user per
      known id, and none for an unknown one. */
  lemma {:induction false} FoundUsersOfKnownIds(ids: seq<Id>, userService: Directory<User>)
    ensures var found, known := FoundUsers(ids, userService), KnownIds(ids, userService);
      |found| == |known| && forall i :: 0 <= i < |known| ==> Some(found[i]) == FindById(userService, known[i])
  {
    if ids != [] {
      FoundUsersOfKnownIds(ids[1..], userService);
      var rest, restKnown := FoundUsers(ids[1..], userService), KnownIds(ids[1..], userService);
      if ids[0] in userService {
        var found, known := [userService[ids[0]]] + rest, [ids[0]] + restKnown;
        assert FoundUsers(ids, userService) == found;
        assert KnownIds(ids, userService) == known;
        forall i | 0 <= i < |known| ensures Some(found[i]) == FindById(userService, known[i]) {
          if i > 0 {
            assert found[i] == rest[i - 1] && known[i] == restKnown[i - 1];
          }
        }
      } else {
        assert FoundUsers(ids, userService) == rest;
        assert KnownIds(ids, userService) == restKnown;
      }
    }
  }

  /** No id is lost exactly when the service knows every id. */
  lemma {:induction false} FoundUsersLength(ids: seq<Id>, userService: Directory<User>)
    ensures |FoundUsers(ids, userService)| == |ids| <==> forall i :: 0 <= i < |ids| ==> ids[i] in userService
  {
    if ids != [] {
      FoundUsersLength(ids[1..], userService);
      if forall i :: 0 <= i < |ids[1..]| ==> ids[1..][i] in userService {
        if ids[0] in userService {
          forall i | 0 <= i < |ids| ensures ids[i] in userService {
            if i > 0 { assert ids[i] == ids[1..][i - 1]; }
          }
        }
      } else {
        var j :| 0 <= j < |ids[1..]| && ids[1..][j] !in userService;
        assert ids[j + 1] !in userService;
      }
    }
  }

  /** Resolving the ids of users the service stores under those ids gives those users back. */
  lemma {:induction false} FoundUsersOfUserIds(users: seq<User>, userService: Directory<User>)
    requires forall u :: u in users ==> FindById(userService, u.id) == Some(u)
    ensures FoundUsers(UserIds(users), userService) == users
  {
    if users != [] {
      assert UserIds(users)[1..] == UserIds(users[1..]);
      FoundUsersOfUserIds(users[1..], userService);
    }
  }

  /** With a user service that stores each user under its own id, the ids of the found users are the
      known ids: unknown ids are dropped, the others kept in order. */
  lemma {:induction false} UserIdsOfFoundUsers(ids: seq<Id>, userService: Directory<User>)
    requires KeyedById(userService, (u: User) => u.id)
    ensures UserIds(FoundUsers(ids, userService)) == KnownIds(ids, userService)
  {
    if ids != [] {
      UserIdsOfFoundUsers(ids[1..], userService);
      var rest := FoundUsers(ids[1..], userService);
      if ids[0] in userService {
        assert UserIds([userService[ids[0]]] + rest)[1..] == UserIds(rest);
      }
    }
  }

  /** The services can resolve what `toDto` writes for `session`: its teacher is stored under its
      (non-null) id and every member under its own id. */
  ghost predicate Resolvable(session: Session, teacherService: Directory<Teacher>, userService: Directory<User>)
  {
    && (session.teacher.Some? ==>
          session.teacher.value.id.Some? && FindById(teacherService, session.teacher.value.id) == session.teacher)
    && (session.users.Some? ==> forall u :: u in session.users.value ==> FindById(userService, u.id) == Some(u))
  }

  /** Entity to transfer object and back, through services that can resolve what was written: every
      field but the timestamps survives. A missing teacher or member list comes back as whatever the
      fresh `Session` holds, since a fresh `SessionDto` (`dtoBlank`) has a null `teacher_id` and `users`. */
  lemma EntityRoundTrip(session: Session, teacherService: Directory<Teacher>, userService: Directory<User>,
                        dtoBlank: SessionDto, blank: Session)
    requires Resolvable(session, teacherService, userService)
    requires dtoBlank.teacher_id.None? && dtoBlank.users.None?
    ensures EntityOf(ToDto(Some(session), dtoBlank), teacherService, userService, blank)
         == Some(session.(teacher := if session.teacher.Some? then session.teacher else blank.teacher,
                          users := if session.users.Some? then session.users else blank.users,
                          createdAt := blank.createdAt, updatedAt := blank.updatedAt))
  {
    if session.users.Some? {
      FoundUsersOfUserIds(session.users.value, userService);
    }
  }

  /** Transfer object to entity and back, through services that store each entity under its own id and
      starting from fresh objects whose teacher, member list, `teacher_id` and `users` are null: every
      field but the timestamps survives, except that an unknown `teacher_id` comes back null and the
      unknown user ids are dropped from `users`. */
  lemma DtoRoundTrip(sessionDto: SessionDto, teacherService: Directory<Teacher>, userService: Directory<User>,
                     dtoBlank: SessionDto, blank: Session)
    requires KeyedById(teacherService, (t: Teacher) => t.id) && KeyedById(userService, (u: User) => u.id)
    requires dtoBlank.teacher_id.None? && dtoBlank.users.None?
    requires blank.teacher.None? && blank.users.None?
    ensures ToDto(EntityOf(Some(sessionDto), teacherService, userService, blank), dtoBlank)
         == Some(sessionDto.(teacher_id := if sessionDto.teacher_id in teacherService then sessionDto.teacher_id else None,
                             users := if sessionDto.users.Some? then Some(KnownIds(sessionDto.users.value, userService)) else None,
                             createdAt := blank.createdAt, updatedAt := blank.updatedAt))
  {
    if sessionDto.users.Some? {
      UserIdsOfFoundUsers(sessionDto.users.value, userService);
    }
  }
}
