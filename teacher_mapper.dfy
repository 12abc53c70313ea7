/** `TeacherMapperImpl`: field-by-field copies between `Teacher` and `TeacherDto`. */
module TeacherMapper {
  import opened Nullable
  import opened JavaTypes
  import opened Models
  import opened Dtos
  import Streams

  /** `toDto(Teacher)`: null stays null; otherwise all five fields are copied. */
  function ToDto(teacher: Option<Teacher>): (r: Option<TeacherDto>)
    ensures r.None? <==> teacher.None?
    ensures teacher.Some? ==>
      var t, d := teacher.value, r.value;
      d.id == t.id && d.lastName == t.lastName && d.firstName == t.firstName
      && d.createdAt == t.createdAt && d.updatedAt == t.updatedAt
  {
    match teacher
    case None => None
    case Some(t) => Some(TeacherDto(t.id, t.lastName, t.firstName, t.createdAt, t.updatedAt))
  }

  /** `toDto(List<Teacher>)`: null stays null; otherwise the same length, element i mapped by `ToDto`. */
  function ToDtoList(teachers: Option<seq<Option<Teacher>>>): (r: Option<seq<Option<TeacherDto>>>)
    ensures r.None? <==> teachers.None?
    ensures teachers.Some? ==> |r.value| == |teachers.value|
    ensures teachers.Some? ==> forall i :: 0 <= i < |teachers.value| ==> r.value[i] == ToDto(teachers.value[i])
  {
    Streams.MapOrNull(ToDto, teachers)
  }

  /** `toEntity(TeacherDto)`: null stays null; otherwise id and both names are copied, and the
      timestamps keep whatever a freshly constructed `Teacher` (`blank`) holds. */
  function ToEntity(teacherDto: Option<TeacherDto>, blank: Teacher): (r: Option<Teacher>)
    ensures r.None? <==> teacherDto.None?
    ensures teacherDto.Some? ==>
      var d, t := teacherDto.value, r.value;
      t.id == d.id && t.lastName == d.lastName && t.firstName == d.firstName
      && t.createdAt == blank.createdAt && t.updatedAt == blank.updatedAt
  {
    match teacherDto
    case None => None
    case Some(d) => Some(blank.(id := d.id, lastName := d.lastName, firstName := d.firstName))
  }

  /** `toEntity(List<TeacherDto>)`: null stays null; otherwise the same length, element i mapped by `ToEntity`. */
  function ToEntityList(dtoList: Option<seq<Option<TeacherDto>>>, blank: Teacher): (r: Option<seq<Option<Teacher>>>)
    ensures r.None? <==> dtoList.None?
    ensures dtoList.Some? ==> |r.value| == |dtoList.value|
    ensures dtoList.Some? ==> forall i :: 0 <= i < |dtoList.value| ==> r.value[i] == ToEntity(dtoList.value[i], blank)
  {
    Streams.MapOrNull((d: Option<TeacherDto>) => ToEntity(d, blank), dtoList)
  }

  /** A teacher as it comes back from a round trip: everything but the timestamps survives. */
  function WithoutTimestamps(t: Teacher, blank: Teacher): Teacher
  {
    t.(createdAt := blank.createdAt, updatedAt := blank.updatedAt)
  }

  /** Entity to transfer object and back: id, last name and first name survive; only the two
      timestamps are lost, and null stays null. */
  lemma EntityRoundTrip(teacher: Option<Teacher>, blank: Teacher)
    ensures teacher.None? ==> ToEntity(ToDto(teacher), blank).None?
    ensures teacher.Some? ==> ToEntity(ToDto(teacher), blank) == Some(WithoutTimestamps(teacher.value, blank))
  {
  }

  /** Transfer object to entity and back: every field survives except the two timestamps. */
  lemma DtoRoundTrip(teacherDto: TeacherDto, blank: Teacher)
    ensures ToDto(ToEntity(Some(teacherDto), blank))
         == Some(teacherDto.(createdAt := blank.createdAt, updatedAt := blank.updatedAt))
  {
  }

  /** Entity list to transfer objects and back: a null list stays null; otherwise length and order are
      kept, element i comes back as element i of the input stripped of its timestamps, and a null
      element stays null. */
  lemma ListRoundTrip(teachers: Option<seq<Option<Teacher>>>, blank: Teacher)
    ensures var back := ToEntityList(ToDtoList(teachers), blank);
      (back.None? <==> teachers.None?)
      && (teachers.Some? ==>
           && |back.value| == |teachers.value|
           && forall i :: 0 <= i < |teachers.value| ==>
                (teachers.value[i].None? ==> back.value[i].None?)
                && (teachers.value[i].Some? ==> back.value[i] == Some(WithoutTimestamps(teachers.value[i].value, blank))))
  {
  }

  /** Transfer-object list to entities and back: a null list stays null; otherwise length and order are
      kept, element i comes back as element i of the input with the fresh object's timestamps, and a
      null element stays null. */
  lemma DtoListRoundTrip(dtoList: Option<seq<Option<TeacherDto>>>, blank: Teacher)
    ensures var back := ToDtoList(ToEntityList(dtoList, blank));
      (back.None? <==> dtoList.None?)
      && (dtoList.Some? ==>
           && |back.value| == |dtoList.value|
           && forall i :: 0 <= i < |dtoList.value| ==>
                (dtoList.value[i].None? ==> back.value[i].None?)
                && (dtoList.value[i].Some? ==>
                      back.value[i] == Some(dtoList.value[i].value.(createdAt := blank.createdAt, updatedAt := blank.updatedAt))))
  {
  }
}
