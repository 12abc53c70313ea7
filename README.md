# Session, user and teacher mappers

A Dafny model of the three mappers in the back end of a session booking application
(`SessionMapperImpl`, `UserMapperImpl`, `TeacherMapperImpl`). Each mapper converts a persisted entity
into its wire-level transfer object (`toDto`) and back (`toEntity`). Each also has a list variant of
both directions.

- `UserMapperImpl` and `TeacherMapperImpl` copy fields one by one. `toEntity` never sets the
  `createdAt`/`updatedAt` timestamps. `UserMapperImpl.toDto` copies the password into the DTO.
- `SessionMapperImpl.toDto` replaces the session's teacher by its id (`teacher_id`). It replaces the
  member list by the list of member ids.
- `SessionMapperImpl.toEntity` resolves `teacher_id` and the member ids through the teacher and user
  lookup services. It builds the member list in a loop and silently skips every id the user service
  cannot find.
- Every operation maps `null` to `null`. The list variants map element by element.

How the model is built:

- Java `null` is `Option.None`. Ids are nullable `java.lang.Long` values (`Id = Option<Long>`, where
  `Long` is a 64-bit newtype). Strings are nullable `string`s. Dates are nullable `Date` values that
  are only compared for equality.
- Java lists may hold `null` elements. `stream().map(this::toDto)` maps such an element to `null`,
  so the list variants work on `Option<seq<Option<T>>>`.
- A field the mapper never assigns keeps whatever the freshly constructed object holds. The entity and
  DTO classes are not part of this model, so that fresh object is a parameter, `blank`. Each contract
  says the field equals `blank`'s field rather than naming a default.
- The lookup services (`TeacherService.findById`, `UserService.findById`) are a `Directory<T>`: a
  finite map from id to entity. An id outside the map gives `None`, which stands for the `null` the
  services return for an unknown id.
- `SessionMapperImpl.toEntity` runs a `for` loop, so it is the method `SessionMapper.ToEntity`. That
  method is proved equal to the function `SessionMapper.EntityOf`. The list variant
  `SessionMapper.ToEntityList` and the lemmas use `EntityOf`, because a function cannot call a method.
  Everything else is a function.

`toEntity` does not remove duplicate ids from `users`: a repeated known id yields that user twice,
once per occurrence (`SessionMapper.FoundUsersOfKnownIds`, `SessionMapper.KnownIdsAppend`).

## Model

| member | source | states |
|---|---|---|
| `TeacherMapper.ToDto` | back/src/main/java/com/openclassrooms/starterjwt/mapper/TeacherMapperImpl.java:14-27 | null gives null; otherwise id, last name, first name, createdAt and updatedAt are copied |
| `TeacherMapper.ToDtoList` | back/src/main/java/com/openclassrooms/starterjwt/mapper/TeacherMapperImpl.java:30-37 | null gives null; otherwise the same length, and element i is `toDto` of element i |
| `TeacherMapper.ToEntity` | back/src/main/java/com/openclassrooms/starterjwt/mapper/TeacherMapperImpl.java:40-51 | null gives null; otherwise id and both names are copied, and the timestamps are those of a fresh `Teacher` (never assigned) |
| `TeacherMapper.ToEntityList` | back/src/main/java/com/openclassrooms/starterjwt/mapper/TeacherMapperImpl.java:54-61 | null gives null; otherwise the same length, and element i is `toEntity` of element i |
| `TeacherMapper.EntityRoundTrip` | back/src/main/java/com/openclassrooms/starterjwt/mapper/TeacherMapperImpl.java:14-51 | `toEntity(toDto(t))` is `t` with only its two timestamps replaced; null stays null |
| `TeacherMapper.DtoRoundTrip` | back/src/main/java/com/openclassrooms/starterjwt/mapper/TeacherMapperImpl.java:14-51 | `toDto(toEntity(d))` is `d` with only its two timestamps replaced |
| `TeacherMapper.ListRoundTrip` | back/src/main/java/com/openclassrooms/starterjwt/mapper/TeacherMapperImpl.java:30-61 | entities to DTOs and back: a null list stays null; otherwise length and order are kept, element i comes back without timestamps, and a null element stays null |
| `TeacherMapper.DtoListRoundTrip` | back/src/main/java/com/openclassrooms/starterjwt/mapper/TeacherMapperImpl.java:30-61 | DTOs to entities and back: a null list stays null; otherwise length and order are kept, element i comes back with the fresh entity's timestamps, and a null element stays null |
| `UserMapper.ToDto` | back/src/main/java/com/openclassrooms/starterjwt/mapper/UserMapperImpl.java:14-30 | null gives null; otherwise all eight fields are copied, the password included |
| `UserMapper.ToDtoList` | back/src/main/java/com/openclassrooms/starterjwt/mapper/UserMapperImpl.java:33-40 | null gives null; otherwise the same length, and element i is `toDto` of element i |
| `UserMapper.ToEntity` | back/src/main/java/com/openclassrooms/starterjwt/mapper/UserMapperImpl.java:43-57 | null gives null; otherwise id, email, both names, admin and password are copied, and the timestamps are those of a fresh `User` |
| `UserMapper.ToEntityList` | back/src/main/java/com/openclassrooms/starterjwt/mapper/UserMapperImpl.java:60-67 | null gives null; otherwise the same length, and element i is `toEntity` of element i |
| `UserMapper.EntityRoundTrip` | back/src/main/java/com/openclassrooms/starterjwt/mapper/UserMapperImpl.java:14-57 | `toEntity(toDto(u))` agrees with `u` on id, email, both names, admin and password; only the timestamps change; null stays null |
| `UserMapper.DtoRoundTrip` | back/src/main/java/com/openclassrooms/starterjwt/mapper/UserMapperImpl.java:14-57 | `toDto(toEntity(d))` agrees with `d` on every field except the two timestamps |
| `UserMapper.ListRoundTrip` | back/src/main/java/com/openclassrooms/starterjwt/mapper/UserMapperImpl.java:33-67 | entities to DTOs and back: a null list stays null; otherwise length and order are kept, element i comes back without timestamps, and a null element stays null |
| `UserMapper.DtoListRoundTrip` | back/src/main/java/com/openclassrooms/starterjwt/mapper/UserMapperImpl.java:33-67 | DTOs to entities and back: a null list stays null; otherwise length and order are kept, element i comes back with the fresh entity's timestamps, and a null element stays null |
| `SessionMapper.UserIds` | back/src/main/java/com/openclassrooms/starterjwt/mapper/SessionMapperImpl.java:43-45 | the member ids have the members' count and order, and id i is member i's id |
| `SessionMapper.ToDto` | back/src/main/java/com/openclassrooms/starterjwt/mapper/SessionMapperImpl.java:27-52 | null gives null; id, name, date, description and both timestamps are copied; `teacher_id` is the teacher's id exactly when there is a teacher, else unassigned; `users` lists the member ids in order when the member list is non-null, else unassigned |
| `SessionMapper.ToDtoList` | back/src/main/java/com/openclassrooms/starterjwt/mapper/SessionMapperImpl.java:55-62 | null gives null; otherwise the same length, and element i is `toDto` of element i |
| `SessionMapper.FoundUsers` | back/src/main/java/com/openclassrooms/starterjwt/mapper/SessionMapperImpl.java:82-89 | the member list built from the ids is no longer than the ids, and every user in it was found by the user service for one of the ids |
| `SessionMapper.KnownIds` | back/src/main/java/com/openclassrooms/starterjwt/mapper/SessionMapperImpl.java:83-87 | the ids the user service can find are no more than the input, and an id is among them exactly when it is in the input and the service knows it |
| `SessionMapper.KnownIdsAppend` | back/src/main/java/com/openclassrooms/starterjwt/mapper/SessionMapperImpl.java:83-87 | keeping the known ids of a concatenation is keeping those of each half, so the known ids keep the input order and every repetition |
| `SessionMapper.EntityOf` | back/src/main/java/com/openclassrooms/starterjwt/mapper/SessionMapperImpl.java:65-93 | null gives null; id, name, date and description are copied; the timestamps are never assigned; the teacher is the lookup result for a non-null `teacher_id` (null if unknown) and unassigned otherwise; the member list is the found users for non-null `users` and unassigned otherwise |
| `SessionMapper.ToEntity` | back/src/main/java/com/openclassrooms/starterjwt/mapper/SessionMapperImpl.java:65-93 | the loop that appends each found user and skips each unknown id builds exactly the session `EntityOf` describes |
| `SessionMapper.ToEntityList` | back/src/main/java/com/openclassrooms/starterjwt/mapper/SessionMapperImpl.java:96-103 | null gives null; otherwise the same length, and element i is `toEntity` of element i |
| `SessionMapper.FoundUsersAppend` | back/src/main/java/com/openclassrooms/starterjwt/mapper/SessionMapperImpl.java:82-89 | resolving a list of ids is resolving its two halves and concatenating, so the members keep the order of their ids |
| `SessionMapper.FoundUsersComplete` | back/src/main/java/com/openclassrooms/starterjwt/mapper/SessionMapperImpl.java:83-87 | every user the service finds for an id of the input is in the member list (the converse of `FoundUsers`'s contract) |
| `SessionMapper.FoundUsersOfKnownIds` | back/src/main/java/com/openclassrooms/starterjwt/mapper/SessionMapperImpl.java:81-90 | the member list is exactly one looked-up user per known id, in input order; unknown ids give nothing |
| `SessionMapper.FoundUsersLength` | back/src/main/java/com/openclassrooms/starterjwt/mapper/SessionMapperImpl.java:83-87 | the member list is as long as the id list exactly when the service knows every id; any unknown id shortens it |
| `SessionMapper.FoundUsersOfUserIds` | back/src/main/java/com/openclassrooms/starterjwt/mapper/SessionMapperImpl.java:42-90 | resolving the ids `toDto` writes, through a service that stores each member under its id, gives back the same member list |
| `SessionMapper.UserIdsOfFoundUsers` | back/src/main/java/com/openclassrooms/starterjwt/mapper/SessionMapperImpl.java:42-90 | through a service that stores each user under its own id, the ids of the found users are the known ids in input order |
| `SessionMapper.EntityRoundTrip` | back/src/main/java/com/openclassrooms/starterjwt/mapper/SessionMapperImpl.java:27-93 | when the teacher service holds `s`'s teacher under its non-null id, the user service holds every member under its id, and the fresh `SessionDto` has null `teacher_id` and `users`: `toEntity(toDto(s))` is `s` with the fresh `Session`'s timestamps, and, where `s` has no teacher or no member list, the fresh `Session`'s teacher or member list |
| `SessionMapper.DtoRoundTrip` | back/src/main/java/com/openclassrooms/starterjwt/mapper/SessionMapperImpl.java:27-93 | when both services store every entity under its own id and the fresh `Session` and `SessionDto` have null teacher, member list, `teacher_id` and `users`: `toDto(toEntity(d))` is `d` with the fresh `Session`'s timestamps, a `teacher_id` the teacher service does not know replaced by null, and `users` reduced to its known ids in input order (null stays null) |

## Left out

- The tests of the repository (JUnit, MockMvc, Jest, Cypress) and the browser client they exercise. They drive controllers, security and views that are not part of this model.
- `TeacherService`, `UserService` and their repositories are not part of this model. Only their `findById` is modelled, as a lookup in a finite map that gives `None` (Java `null`) for an unknown id. A lookup that throws (for instance on a `null` id) is not modelled.
- `SessionMapper.ToDto`: a `null` element inside `session.users` would make `User::getId` throw a `NullPointerException`. The model's member lists cannot hold `null`, so that exception is not modelled.
- Object identity and aliasing are not modelled. The mappers return fresh objects but share the `String`, `Date`, `Teacher` and `User` references they copy. The model works on values.
- Fields of the entity and DTO classes that the mappers never read or write are not modelled. The classes themselves are not part of this model.
- The Spring `@Component` wiring and the constructor that stores the two services. The services are passed to `SessionMapper.ToEntity`, `EntityOf` and `ToEntityList` as parameters.
