/** The loaded problem data shared by the list-genome and grid-genome
    optimisers: the `Disciplina`, `Professor`, `Sala` and `Disponibilidade`
    records and the dictionaries that hold them. A dictionary keyed by code
    is a sequence in insertion order; availability stays a map from teacher
    code to that teacher's records. */
module Records {
  import opened Wrappers
  import Week

  datatype Subject = Subject(code: string, name: string, hours: int, period: int, cohort: string)
  datatype Teacher = Teacher(code: string, name: string, subject: string)
  datatype Room = Room(code: string, name: string, capacity: int)
  datatype Availability = Availability(teacher: string, shift: string, day: string, slot: string)

  datatype Catalog = Catalog(
    subjects: seq<Subject>,
    teachers: seq<Teacher>,
    rooms: seq<Room>,
    availability: map<string, seq<Availability>>)

  /** Codes are unique, as the keys of the source's dictionaries are. */
  predicate UniqueSubjectCodes(subjects: seq<Subject>)
  {
    forall i, j :: 0 <= i < j < |subjects| ==> subjects[i].code != subjects[j].code
  }

  /** The first teacher, in dictionary order, whose subject is `code`;
      `None` when nobody teaches it. */
  function FirstTeacher(teachers: seq<Teacher>, code: string): (r: Option<string>)
    ensures r.None? <==> forall i :: 0 <= i < |teachers| ==> teachers[i].subject != code
    ensures r.Some? ==> exists i :: 0 <= i < |teachers| && teachers[i].subject == code && teachers[i].code == r.value
                                    && forall j :: 0 <= j < i ==> teachers[j].subject != code
  {
    if teachers == [] then None
    else if teachers[0].subject == code then Some(teachers[0].code)
    else
      var r := FirstTeacher(teachers[1..], code);
      assert forall j :: 1 <= j < |teachers| ==> teachers[j] == teachers[1..][j - 1];
      r
  }

  /** `professores[code]`: the teacher record with code `code`, the first
      one in dictionary order; `None` for the `KeyError` of a missing code
      or of a lesson without teacher. */
  function TeacherByCode(teachers: seq<Teacher>, code: Option<string>): (r: Option<Teacher>)
    ensures r.None? <==> code.None? || forall i :: 0 <= i < |teachers| ==> teachers[i].code != code.value
    ensures r.Some? ==> exists i :: 0 <= i < |teachers| && teachers[i] == r.value && teachers[i].code == code.value
                                    && forall j :: 0 <= j < i ==> teachers[j].code != code.value
  {
    if code.None? || teachers == [] then None
    else if teachers[0].code == code.value then Some(teachers[0])
    else
      var r := TeacherByCode(teachers[1..], code);
      assert forall j :: 1 <= j < |teachers| ==> teachers[j] == teachers[1..][j - 1];
      r
  }

  /** Some record of the list names both the given day and the given slot. */
  function HasSlot(records: seq<Availability>, day: string, slot: string): (r: bool)
    ensures r <==> exists i :: 0 <= i < |records| && records[i].day == day && records[i].slot == slot
  {
    if records == [] then false
    else if records[0].day == day && records[0].slot == slot then true
    else
      var r := HasSlot(records[1..], day, slot);
      assert forall j :: 1 <= j < |records| ==> records[j] == records[1..][j - 1];
      r
  }

  /** A teacher is available at grid cell (d, h) when they have records and
      one of them names that day and that slot. A missing teacher (`None`)
      or one without records is never available. */
  function IsAvailable(availability: map<string, seq<Availability>>, teacher: Option<string>, d: int, h: int): (r: bool)
    requires Week.IsDay(d) && Week.IsSlot(h)
    ensures r <==> teacher.Some? && teacher.value in availability
                   && exists i :: 0 <= i < |availability[teacher.value]|
                                  && availability[teacher.value][i].day == Week.DayNames[d]
                                  && availability[teacher.value][i].slot == Week.SlotNames[h]
  {
    teacher.Some? && teacher.value in availability
    && HasSlot(availability[teacher.value], Week.DayNames[d], Week.SlotNames[h])
  }

  /** Index of the subject with code `code`, if any (a dictionary lookup). */
  function SubjectIndex(subjects: seq<Subject>, code: string): (r: Option<nat>)
    ensures r.None? <==> forall i :: 0 <= i < |subjects| ==> subjects[i].code != code
    ensures r.Some? ==> r.value < |subjects| && subjects[r.value].code == code
                        && forall j :: 0 <= j < r.value ==> subjects[j].code != code
  {
    if subjects == [] then None
    else if subjects[0].code == code then Some(0)
    else
      match SubjectIndex(subjects[1..], code)
      case None =>
        assert forall j :: 1 <= j < |subjects| ==> subjects[j] == subjects[1..][j - 1];
        None
      case Some(i) =>
        assert forall j :: 1 <= j <= i ==> subjects[j] == subjects[1..][j - 1];
        Some(i + 1)
  }

  /** Every positive weekly load can be given a room: the source raises for
      an empty room table as soon as one lesson needs a room. */
  predicate HasRoomFor(cat: Catalog)
  {
    |cat.rooms| > 0 || forall i :: 0 <= i < |cat.subjects| ==> cat.subjects[i].hours <= 0
  }
}
