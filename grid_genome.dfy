/** The grid genome of the second optimiser (genetic_scheduler_v2.py): a
    5 x 4 agenda whose cells hold an `Aula` or nothing, the list of lessons
    the catalog demands, and the seven positive scorers whose sum is the
    fitness. Everything here works on the row-major view of a grid, a
    sequence of twenty cells where cell (d, h) sits at position 4d + h. */
module GridGenome {
  import opened Wrappers
  import opened Counting
  import opened Records
  import Week

  /** An `Aula`: the subject, its teacher (the source leaves `None` when no
      teacher teaches the subject) and the room. */
  datatype Lesson = Lesson(subject: string, teacher: Option<string>, room: string)

  type Cell = Option<Lesson>

  predicate IsGrid(g: seq<Cell>) { |g| == Week.NumCells }

  predicate IsWeek(a: array2<Cell>)
  {
    a.Length0 == Week.NumDays && a.Length1 == Week.NumSlots
  }

  /** Row-major view of a numpy agenda. */
  function Cells(a: array2<Cell>): (g: seq<Cell>)
    requires IsWeek(a)
    reads a
    ensures IsGrid(g)
  {
    seq(Week.NumCells, k requires 0 <= k < Week.NumCells reads a => a[k / 4, k % 4])
  }

  /** Writes cell `p` of the agenda. */
  method SetCell(a: array2<Cell>, p: nat, c: Cell)
    requires IsWeek(a) && p < Week.NumCells
    modifies a
    ensures Cells(a) == old(Cells(a))[p := c]
  {
    ghost var g := Cells(a);
    a[p / 4, p % 4] := c;
    forall k | 0 <= k < Week.NumCells ensures Cells(a)[k] == g[p := c][k] {
      assert k == 4 * (k / 4) + k % 4 && p == 4 * (p / 4) + p % 4;
    }
  }

  // ---------------------------------------------------------------------
  // The demanded lessons (_criar_aulas_obrigatorias)
  // ---------------------------------------------------------------------

  /** `range(carga_horaria)` is empty for a non-positive load. */
  function Hours(s: Subject): nat
  {
    if s.hours > 0 then s.hours else 0
  }

  function TotalHours(subjects: seq<Subject>): nat
  {
    if subjects == [] then 0
    else TotalHours(subjects[..|subjects| - 1]) + Hours(subjects[|subjects| - 1])
  }

  /** The lesson the source creates for a subject: first teacher, given room. */
  function LessonFor(teachers: seq<Teacher>, s: Subject, room: string): Lesson
  {
    Lesson(s.code, FirstTeacher(teachers, s.code), room)
  }

  /** The demand list: for every subject in dictionary order, as many
      copies of its lesson as its weekly load. */
  function DemandFor(teachers: seq<Teacher>, subjects: seq<Subject>, room: string): seq<Lesson>
  {
    if subjects == [] then []
    else
      var last := subjects[|subjects| - 1];
      DemandFor(teachers, subjects[..|subjects| - 1], room) + Repeat(LessonFor(teachers, last, room), Hours(last))
  }

  /** The first room of the room table, when there is one. */
  function FirstRoom(cat: Catalog): string
  {
    if |cat.rooms| > 0 then cat.rooms[0].code else ""
  }

  function Demand(cat: Catalog): seq<Lesson>
  {
    DemandFor(cat.teachers, cat.subjects, FirstRoom(cat))
  }

  function SubjectsOf(ls: seq<Lesson>): (r: seq<string>)
    ensures |r| == |ls|
  {
    seq(|ls|, i requires 0 <= i < |ls| => ls[i].subject)
  }

  /** The demand holds exactly the sum of the weekly loads. */
  lemma {:induction false} DemandLength(teachers: seq<Teacher>, subjects: seq<Subject>, room: string)
    ensures |DemandFor(teachers, subjects, room)| == TotalHours(subjects)
  {
    if subjects != [] {
      DemandLength(teachers, subjects[..|subjects| - 1], room);
    }
  }

  /** Each demanded lesson is the lesson of one of the subjects: it has
      that subject's first teacher and the given room. */
  lemma {:induction false} DemandLessons(teachers: seq<Teacher>, subjects: seq<Subject>, room: string)
    ensures forall l :: l in DemandFor(teachers, subjects, room) ==>
              l.room == room && l.teacher == FirstTeacher(teachers, l.subject)
              && exists i :: 0 <= i < |subjects| && subjects[i].code == l.subject
  {
    if subjects != [] {
      var init := subjects[..|subjects| - 1];
      var last := subjects[|subjects| - 1];
      DemandLessons(teachers, init, room);
      forall l | l in DemandFor(teachers, subjects, room)
        ensures l.room == room && l.teacher == FirstTeacher(teachers, l.subject)
                && exists i :: 0 <= i < |subjects| && subjects[i].code == l.subject
      {
        if l in DemandFor(teachers, init, room) {
          var i :| 0 <= i < |init| && init[i].code == l.subject;
          assert subjects[i] == init[i];
        } else {
          assert l == LessonFor(teachers, last, room);
        }
      }
    }
  }

  /** The lessons of subject `code` the last subject adds to the demand. */
  lemma {:induction false} DemandCountSnoc(teachers: seq<Teacher>, subjects: seq<Subject>, room: string, code: string)
    requires subjects != []
    ensures var last := subjects[|subjects| - 1];
            Count(SubjectsOf(DemandFor(teachers, subjects, room)), code)
            == Count(SubjectsOf(DemandFor(teachers, subjects[..|subjects| - 1], room)), code)
               + if last.code == code then Hours(last) else 0
  {
    var last := subjects[|subjects| - 1];
    var a := DemandFor(teachers, subjects[..|subjects| - 1], room);
    var b := Repeat(LessonFor(teachers, last, room), Hours(last));
    assert DemandFor(teachers, subjects, room) == a + b;
    assert SubjectsOf(a + b) == SubjectsOf(a) + Repeat(last.code, Hours(last));
    CountAppend(SubjectsOf(a), Repeat(last.code, Hours(last)), code);
    CountRepeat(last.code, Hours(last), code);
  }

  /** The weekly load the table gives code `code`, with unique codes:
      that of the last subject when it has the code, otherwise that of
      the subjects before it. */
  lemma {:induction false} LoadSnoc(subjects: seq<Subject>, code: string)
    requires UniqueSubjectCodes(subjects) && subjects != []
    ensures var init, last := subjects[..|subjects| - 1], subjects[|subjects| - 1];
            (if exists i :: 0 <= i < |subjects| && subjects[i].code == code
             then Hours(subjects[SubjectIndex(subjects, code).value]) else 0)
            == (if exists i :: 0 <= i < |init| && init[i].code == code
                then Hours(init[SubjectIndex(init, code).value]) else 0)
               + if last.code == code then Hours(last) else 0
  {
    var init := subjects[..|subjects| - 1];
    var last := subjects[|subjects| - 1];
    if last.code == code {
      forall i | 0 <= i < |init| ensures init[i].code != code {
        assert init[i] == subjects[i];
      }
      var j := SubjectIndex(subjects, code).value;
      assert j == |subjects| - 1;
    } else if exists i :: 0 <= i < |init| && init[i].code == code {
      var i :| 0 <= i < |init| && init[i].code == code;
      assert subjects[i] == init[i];
      var j := SubjectIndex(subjects, code).value;
      var j' := SubjectIndex(init, code).value;
      assert subjects[j'] == init[j'];
      assert j == j';
    } else {
      forall i | 0 <= i < |subjects| ensures subjects[i].code != code {
        if i < |init| { assert subjects[i] == init[i]; }
      }
    }
  }

  /** With unique subject codes, subject `subjects[i]` gets exactly its
      weekly load of lessons, and a code outside the table gets none. */
  lemma {:induction false} DemandCount(teachers: seq<Teacher>, subjects: seq<Subject>, room: string, code: string)
    requires UniqueSubjectCodes(subjects)
    ensures Count(SubjectsOf(DemandFor(teachers, subjects, room)), code)
            == if exists i :: 0 <= i < |subjects| && subjects[i].code == code
               then Hours(subjects[SubjectIndex(subjects, code).value]) else 0
  {
    if subjects != [] {
      var init := subjects[..|subjects| - 1];
      assert UniqueSubjectCodes(init) by {
        forall i | 0 <= i < |init| ensures init[i] == subjects[i] { }
      }
      DemandCount(teachers, init, room, code);
      DemandCountSnoc(teachers, subjects, room, code);
      LoadSnoc(subjects, code);
    }
  }

  // ---------------------------------------------------------------------
  // Counting over a grid
  // ---------------------------------------------------------------------

  /** The subject code of each cell, `None` for an empty one. */
  function Tags(g: seq<Cell>): (r: seq<Option<string>>)
    ensures |r| == |g|
  {
    seq(|g|, k requires 0 <= k < |g| => if g[k].Some? then Some(g[k].value.subject) else None)
  }

  /** `aulas_por_disciplina[code]`: the cells holding a lesson of `code`. */
  function SubjectCount(g: seq<Cell>, code: string): nat
  {
    Count(Tags(g), Some(code))
  }

  function Occupied(g: seq<Cell>): (n: nat)
    ensures n <= |g|
  {
    |g| - Count(g, None)
  }

  lemma OccupiedAppend(a: seq<Cell>, b: seq<Cell>)
    ensures Occupied(a + b) == Occupied(a) + Occupied(b)
  {
    CountAppend(a, b, None);
  }

  lemma OccupiedCons(g: seq<Cell>, k: nat)
    requires k < |g|
    ensures Occupied(g[k..]) == (if g[k].Some? then 1 else 0) + Occupied(g[k + 1..])
  {
    assert g[k..] == [g[k]] + g[k + 1..];
    OccupiedAppend([g[k]], g[k + 1..]);
    assert [g[k]][1..] == [];
  }

  /** Writing a lesson into an empty cell adds one to its subject's count
      and leaves every other subject's count alone. */
  lemma {:induction false} FillOneCount(g: seq<Cell>, k: nat, l: Lesson, code: string)
    requires k < |g| && g[k].None?
    ensures SubjectCount(g[k := Some(l)], code) == SubjectCount(g, code) + (if l.subject == code then 1 else 0)
    ensures Count(g[k := Some(l)], None) == Count(g, None) - 1
  {
    assert Tags(g[k := Some(l)]) == Tags(g)[k := Some(l.subject)];
    CountUpdate(Tags(g), k, Some(l.subject), Some(code));
    CountUpdate(g, k, Some(l), None);
  }

  // ---------------------------------------------------------------------
  // The scorers (_pontuar_*)
  // ---------------------------------------------------------------------

  const CompleteWeight: real := 1000.0
  const AvailableWeight: nat := 500
  const BalanceWeight: real := 200.0
  const LoadWeight: nat := 150
  const NoGapWeight: nat := 100
  const TeacherWeight: nat := 80
  const RoomWeight: real := 50.0

  /** One subject's completeness points: the full weight once its count
      reaches the load, half the weight times the fraction otherwise. */
  function SubjectPoints(hours: int, count: nat): (p: real)
    ensures 0.0 <= p <= CompleteWeight
    ensures p == CompleteWeight <==> count >= hours
  {
    if count >= hours then CompleteWeight
    else
      var fraction := (count as real) / (hours as real);
      assert fraction < 1.0 by {
        assert fraction * (hours as real) == count as real;
      }
      CompleteWeight * fraction * 0.5
  }

  function Completeness(subjects: seq<Subject>, g: seq<Cell>): real
  {
    if subjects == [] then 0.0
    else Completeness(subjects[..|subjects| - 1], g)
         + SubjectPoints(subjects[|subjects| - 1].hours, SubjectCount(g, subjects[|subjects| - 1].code))
  }

  predicate AllComplete(subjects: seq<Subject>, g: seq<Cell>)
  {
    forall i :: 0 <= i < |subjects| ==> SubjectCount(g, subjects[i].code) >= subjects[i].hours
  }

  /** Completeness lies between 0 and 1000 per subject, and reaches the
      top exactly when every subject has at least its load. */
  lemma {:induction false} CompletenessBounds(subjects: seq<Subject>, g: seq<Cell>)
    ensures 0.0 <= Completeness(subjects, g) <= CompleteWeight * (|subjects| as real)
    ensures Completeness(subjects, g) == CompleteWeight * (|subjects| as real) <==> AllComplete(subjects, g)
  {
    if subjects != [] {
      var init := subjects[..|subjects| - 1];
      var last := subjects[|subjects| - 1];
      CompletenessBounds(init, g);
      assert forall i :: 0 <= i < |init| ==> init[i] == subjects[i];
      if AllComplete(subjects, g) {
        assert AllComplete(init, g);
      }
    }
  }

  /** Occupied cells at positions `k` and beyond whose teacher is available. */
  function AvailableFrom(availability: map<string, seq<Availability>>, g: seq<Cell>, k: nat): nat
    requires IsGrid(g) && k <= |g|
    decreases |g| - k
  {
    if k == |g| then 0
    else
      (if g[k].Some? && IsAvailable(availability, g[k].value.teacher, k / 4, k % 4) then 1 else 0)
      + AvailableFrom(availability, g, k + 1)
  }

  /** The available lessons never outnumber the occupied cells. */
  lemma {:induction false} AvailableAtMostOccupied(availability: map<string, seq<Availability>>, g: seq<Cell>, k: nat)
    requires IsGrid(g) && k <= |g|
    ensures AvailableFrom(availability, g, k) <= Occupied(g[k..])
    decreases |g| - k
  {
    if k < |g| {
      AvailableAtMostOccupied(availability, g, k + 1);
      OccupiedCons(g, k);
    }
  }

  /** `_pontuar_disponibilidade`: 500 per occupied cell whose teacher has a
      record for that day and slot. */
  function AvailabilityScore(availability: map<string, seq<Availability>>, g: seq<Cell>): nat
    requires IsGrid(g)
  {
    AvailableWeight * AvailableFrom(availability, g, 0)
  }

  function Row(g: seq<Cell>, d: nat): (r: seq<Cell>)
    requires IsGrid(g) && Week.IsDay(d)
    ensures |r| == Week.NumSlots && forall h :: 0 <= h < Week.NumSlots ==> r[h] == g[4 * d + h]
  {
    g[4 * d .. 4 * d + 4]
  }

  /** The per-day lesson counts `aulas_por_dia`. */
  function DayCounts(g: seq<Cell>): (r: seq<int>)
    requires IsGrid(g)
    ensures |r| == Week.NumDays
  {
    seq(Week.NumDays, d requires 0 <= d < Week.NumDays => Occupied(Row(g, d)))
  }

  /** Each day holds at most four lessons, and the day counts add up to the
      number of occupied cells of the week. */
  lemma DayCountsSum(g: seq<Cell>)
    requires IsGrid(g)
    ensures forall d :: 0 <= d < Week.NumDays ==> 0 <= DayCounts(g)[d] <= Week.NumSlots
    ensures Sum(DayCounts(g)) == Occupied(g)
  {
    var r := DayCounts(g);
    forall d | 0 <= d < Week.NumDays ensures 0 <= r[d] <= Week.NumSlots {
      DayCountAt(g, d);
    }
    DayCountsFrom(g, 0);
    assert r[0..] == r && g[4 * 0..] == g;
  }

  lemma DayCountAt(g: seq<Cell>, d: nat)
    requires IsGrid(g) && d < Week.NumDays
    ensures DayCounts(g)[d] == Occupied(g[4 * d..4 * d + 4])
  {
    assert Row(g, d) == g[4 * d..4 * d + 4];
  }

  lemma {:induction false} DayCountsFrom(g: seq<Cell>, d: nat)
    requires IsGrid(g) && d <= Week.NumDays
    ensures Sum(DayCounts(g)[d..]) == Occupied(g[4 * d..])
    decreases Week.NumDays - d
  {
    var r := DayCounts(g);
    if d == Week.NumDays {
      assert r[d..] == [] && g[4 * d..] == [];
    } else {
      DayCountsFrom(g, d + 1);
      var k := 4 * d;
      var row, rest := g[k..k + 4], g[k + 4..];
      DayCountAt(g, d);
      assert r[d..][0] == r[d] && r[d..][1..] == r[d + 1..];
      assert Sum(r[d..]) == r[d] + Sum(r[d + 1..]);
      assert g[k..] == row + rest;
      OccupiedAppend(row, rest);
      assert 4 * (d + 1) == k + 4;
    }
  }

  /** `_pontuar_distribuicao`, given numpy's standard deviation of the day
      counts. */
  function BalanceScore(spread: real): (p: real)
    ensures p >= 0.0
    ensures spread >= 0.0 ==> p <= 2.0 * BalanceWeight
  {
    BalanceWeight * (if 2.0 - spread > 0.0 then 2.0 - spread else 0.0)
  }

  /** `_pontuar_carga_diaria` over the days before `d`. */
  function LoadBefore(g: seq<Cell>, d: nat): nat
    requires IsGrid(g) && d <= Week.NumDays
  {
    if d == 0 then 0
    else LoadBefore(g, d - 1) + (if Occupied(Row(g, d - 1)) <= 4 then LoadWeight else 0)
  }

  function LoadScore(g: seq<Cell>): nat
    requires IsGrid(g)
  {
    LoadBefore(g, Week.NumDays)
  }

  /** A day has only four cells, so no day is ever overloaded and the
      daily-load score is the constant 5 x 150. */
  lemma {:induction false} LoadScoreConstant(g: seq<Cell>, d: nat)
    requires IsGrid(g) && d <= Week.NumDays
    ensures LoadBefore(g, d) == LoadWeight * d
  {
    if d > 0 {
      LoadScoreConstant(g, d - 1);
    }
  }

  function Busy(row: seq<Cell>): (b: seq<bool>)
    ensures |b| == |row|
  {
    seq(|row|, i requires 0 <= i < |row| => row[i].Some?)
  }

  /** Empty cells strictly between the first and the last occupied cell. */
  function Gaps(row: seq<Cell>): nat
    requires true in Busy(row)
  {
    var b := Busy(row);
    var first := FirstIndex(b, true);
    var last := LastIndex(b, true);
    assert forall j :: 0 <= j < first ==> b[j] != true by {
      assert forall j :: 0 <= j < first ==> b[j] == b[..first][j];
    }
    assert first <= last;
    Count(b[first..last + 1], false)
  }

  /** One day's continuity points: nothing for an empty day, otherwise 100
      for each of the four minus the gaps. */
  function DayContinuity(row: seq<Cell>): nat
  {
    if true in Busy(row) then NoGapWeight * (if Gaps(row) <= 4 then 4 - Gaps(row) else 0) else 0
  }

  lemma {:induction false} GapsAtMostTwo(row: seq<Cell>)
    requires |row| == Week.NumSlots && true in Busy(row)
    ensures Gaps(row) <= 2
  {
    var b := Busy(row);
    var first := FirstIndex(b, true);
    var last := LastIndex(b, true);
    if first < last {
      var s := b[first..last + 1];
      CountSlice(s, false, 1, |s| - 1);
      assert s[..1] == [true] && s[|s| - 1..] == [true];
    } else {
      assert b[first..last + 1] == [true];
    }
  }

  /** A day scores 0 when empty and 200, 300 or 400 otherwise, 400 exactly
      when its occupied cells are contiguous. */
  lemma {:induction false} DayContinuityValues(row: seq<Cell>)
    requires |row| == Week.NumSlots
    ensures DayContinuity(row) in {0, 200, 300, 400}
    ensures DayContinuity(row) == 0 <==> forall h :: 0 <= h < |row| ==> row[h].None?
    ensures DayContinuity(row) == 400 <==> true in Busy(row) && Gaps(row) == 0
  {
    if true in Busy(row) {
      GapsAtMostTwo(row);
    } else {
      forall h | 0 <= h < |row| ensures row[h].None? {
        assert Busy(row)[h] == row[h].Some?;
      }
    }
  }

  function ContinuityBefore(g: seq<Cell>, d: nat): nat
    requires IsGrid(g) && d <= Week.NumDays
  {
    if d == 0 then 0 else ContinuityBefore(g, d - 1) + DayContinuity(Row(g, d - 1))
  }

  /** `_pontuar_continuidade`. */
  function ContinuityScore(g: seq<Cell>): nat
    requires IsGrid(g)
  {
    ContinuityBefore(g, Week.NumDays)
  }

  lemma {:induction false} ContinuityBound(g: seq<Cell>, d: nat)
    requires IsGrid(g) && d <= Week.NumDays
    ensures ContinuityBefore(g, d) <= 400 * d
  {
    if d > 0 {
      ContinuityBound(g, d - 1);
      DayContinuityValues(Row(g, d - 1));
    }
  }

  /** The teacher keys of the occupied cells in row-major order (`None`
      included, as the source's `professor_dias` keys are). */
  function TeacherList(g: seq<Cell>): seq<Option<string>>
  {
    if g == [] then []
    else
      var rest := TeacherList(g[..|g| - 1]);
      var c := g[|g| - 1];
      if c.Some? then rest + [c.value.teacher] else rest
  }

  predicate WorksOn(g: seq<Cell>, t: Option<string>, d: nat)
    requires IsGrid(g) && Week.IsDay(d)
  {
    var row := Row(g, d);
    exists h :: 0 <= h < Week.NumSlots && row[h].Some? && row[h].value.teacher == t
  }

  /** `len(professor_dias[t])`, counted over the days before `d`. */
  function DaysWorked(g: seq<Cell>, t: Option<string>, d: nat): (n: nat)
    requires IsGrid(g) && d <= Week.NumDays
    ensures n <= d
  {
    if d == 0 then 0 else DaysWorked(g, t, d - 1) + (if WorksOn(g, t, d - 1) then 1 else 0)
  }

  function TeacherPoints(g: seq<Cell>, keys: seq<Option<string>>): nat
    requires IsGrid(g)
  {
    if keys == [] then 0
    else
      var days := DaysWorked(g, keys[|keys| - 1], Week.NumDays);
      TeacherPoints(g, keys[..|keys| - 1]) + TeacherWeight * (if days <= 6 then 6 - days else 0)
  }

  /** `_pontuar_professor`: 80 x (6 - days) for each distinct teacher key. */
  function TeacherScore(g: seq<Cell>): nat
    requires IsGrid(g)
  {
    TeacherPoints(g, Dedup(TeacherList(g)))
  }

  lemma {:induction false} TeacherListMembers(g: seq<Cell>, t: Option<string>)
    ensures t in TeacherList(g) <==> exists k :: 0 <= k < |g| && g[k].Some? && g[k].value.teacher == t
  {
    if g != [] {
      var init := g[..|g| - 1];
      TeacherListMembers(init, t);
      if exists k :: 0 <= k < |g| && g[k].Some? && g[k].value.teacher == t {
        var k :| 0 <= k < |g| && g[k].Some? && g[k].value.teacher == t;
        if k < |g| - 1 { assert init[k] == g[k]; }
      }
      if exists k :: 0 <= k < |init| && init[k].Some? && init[k].value.teacher == t {
        var k :| 0 <= k < |init| && init[k].Some? && init[k].value.teacher == t;
        assert g[k] == init[k];
      }
    }
  }

  lemma {:induction false} WorksSomeDay(g: seq<Cell>, t: Option<string>, d: nat, k: nat)
    requires IsGrid(g) && d <= Week.NumDays && k < 4 * d
    requires g[k].Some? && g[k].value.teacher == t
    ensures DaysWorked(g, t, d) >= 1
  {
    if k / 4 == d - 1 {
      var h := k % 4;
      assert Row(g, d - 1)[h] == g[k];
      assert WorksOn(g, t, d - 1);
    } else {
      WorksSomeDay(g, t, d - 1, k);
    }
  }

  lemma {:induction false} TeacherPointsBounds(g: seq<Cell>, keys: seq<Option<string>>)
    requires IsGrid(g)
    requires forall i :: 0 <= i < |keys| ==> keys[i] in TeacherList(g)
    ensures TeacherWeight * |keys| <= TeacherPoints(g, keys) <= 5 * TeacherWeight * |keys|
  {
    if keys != [] {
      var t := keys[|keys| - 1];
      TeacherPointsBounds(g, keys[..|keys| - 1]);
      TeacherListMembers(g, t);
      var k :| 0 <= k < |g| && g[k].Some? && g[k].value.teacher == t;
      WorksSomeDay(g, t, Week.NumDays, k);
    }
  }

  /** Every teacher that appears is on at least one and at most five days,
      so each distinct key earns between 80 and 400. */
  lemma {:induction false} TeacherScoreBounds(g: seq<Cell>)
    requires IsGrid(g)
    ensures var n := |Dedup(TeacherList(g))|;
            TeacherWeight * n <= TeacherScore(g) <= 5 * TeacherWeight * n
  {
    var keys := Dedup(TeacherList(g));
    assert forall i :: 0 <= i < |keys| ==> keys[i] in Distinct(keys);
    TeacherPointsBounds(g, keys);
  }

  /** `_pontuar_sala`: 50 x the occupied fraction of the twenty cells. */
  function RoomScore(g: seq<Cell>): (p: real)
    requires IsGrid(g)
    ensures 0.0 <= p <= RoomWeight
  {
    RoomWeight * (Occupied(g) as real) / (Week.NumCells as real)
  }

  /** `calcular_fitness`: the sum of the seven scores. The standard
      deviation of the day counts is numpy's, supplied as `std`. */
  function Fitness(cat: Catalog, std: seq<int> -> real, g: seq<Cell>): real
    requires IsGrid(g)
  {
    Completeness(cat.subjects, g)
    + (AvailabilityScore(cat.availability, g) as real)
    + BalanceScore(std(DayCounts(g)))
    + (LoadScore(g) as real)
    + (ContinuityScore(g) as real)
    + (TeacherScore(g) as real)
    + RoomScore(g)
  }

  /** Every score is non-negative and the daily-load score alone is 750, so
      every grid scores at least 750: always above the optimiser's
      starting best of 0. */
  lemma {:induction false} FitnessAtLeastLoad(cat: Catalog, std: seq<int> -> real, g: seq<Cell>)
    requires IsGrid(g)
    ensures Fitness(cat, std, g) >= 750.0
  {
    CompletenessBounds(cat.subjects, g);
    LoadScoreConstant(g, Week.NumDays);
  }

  // ---------------------------------------------------------------------
  // The lessons a grid holds
  // ---------------------------------------------------------------------

  function CellBag(c: Cell): multiset<Lesson>
  {
    if c.Some? then multiset{c.value} else multiset{}
  }

  /** The multiset of lessons in the occupied cells. */
  function Placed(g: seq<Cell>): multiset<Lesson>
  {
    if g == [] then multiset{} else Placed(g[..|g| - 1]) + CellBag(g[|g| - 1])
  }

  /** A lesson is placed as often as its cell value occurs in the grid. */
  lemma {:induction false} PlacedCount(g: seq<Cell>, l: Lesson)
    ensures Placed(g)[l] == Count(g, Some(l))
  {
    if g != [] {
      var init, last := g[..|g| - 1], g[|g| - 1];
      PlacedCount(init, l);
      assert Placed(g) == Placed(init) + CellBag(last);
      assert g == init + [last];
      CountAppend(init, [last], Some(l));
      assert CellBag(last)[l] == Count([last], Some(l)) by {
        assert [last][1..] == [];
      }
    }
  }

  /** The grid holds as many lessons as it has occupied cells. */
  lemma {:induction false} PlacedSize(g: seq<Cell>)
    ensures |Placed(g)| == Occupied(g)
  {
    if g != [] {
      var init, last := g[..|g| - 1], g[|g| - 1];
      PlacedSize(init);
      assert g == init + [last];
      CountAppend(init, [last], None);
      assert |CellBag(last)| == 1 - Count([last], None);
    }
  }

  /** A lesson is placed as often as its cell value occurs in the grid,
      and the grid holds as many lessons as it has occupied cells. */
  lemma {:induction false} PlacedIsCount(g: seq<Cell>, l: Lesson)
    ensures Placed(g)[l] == Count(g, Some(l))
    ensures |Placed(g)| == Occupied(g)
  {
    PlacedCount(g, l);
    PlacedSize(g);
  }

  /** Grids with the same cell counts hold the same lessons. */
  lemma {:induction false} PlacedOfSameCounts(g1: seq<Cell>, g2: seq<Cell>)
    requires forall c: Cell :: Count(g1, c) == Count(g2, c)
    ensures Placed(g1) == Placed(g2)
  {
    forall l: Lesson ensures Placed(g1)[l] == Placed(g2)[l] {
      PlacedIsCount(g1, l);
      PlacedIsCount(g2, l);
    }
  }

  /** Writing a lesson into an empty cell adds exactly that lesson. */
  lemma {:induction false} PlacedFill(g: seq<Cell>, k: nat, l: Lesson)
    requires k < |g| && g[k].None?
    ensures Placed(g[k := Some(l)]) == Placed(g) + multiset{l}
  {
    var n := |g|;
    if k < n - 1 {
      assert g[k := Some(l)][..n - 1] == g[..n - 1][k := Some(l)];
      PlacedFill(g[..n - 1], k, l);
    } else {
      assert g[k := Some(l)][..n - 1] == g[..n - 1];
    }
  }
}
