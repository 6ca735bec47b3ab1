/** The three statistics sheets written beside a grid agenda
    (`criar_planilha_estatisticas`): lessons per day, allocation per
    subject, load per teacher. Each sheet is a function of the twenty
    cells and the catalog; the methods run the source's loops and are
    proved to compute those functions. */
module GridStatistics {
  import opened Wrappers
  import opened Counting
  import opened Records
  import opened GridGenome
  import opened GridMetrics
  import GridRepair
  import Week

  // ---------------------------------------------------------------- per day

  /** A row of `Stats_Por_Dia`. */
  datatype DayStat = DayStat(day: string, lessons: nat, free: int, percent: real)

  /** The row of day `d` with `n` lessons. */
  function DayStatFor(d: nat, n: nat): DayStat
    requires Week.IsDay(d)
  {
    DayStat(Week.DayNames[d], n, Week.NumSlots - n, (n as real / Week.NumSlots as real) * 100.0)
  }

  function DayStatOf(g: seq<Cell>, d: nat): DayStat
    requires IsGrid(g) && Week.IsDay(d)
  {
    DayStatFor(d, Occupied(Row(g, d)))
  }

  function DayStats(g: seq<Cell>): (r: seq<DayStat>)
    requires IsGrid(g)
    ensures |r| == Week.NumDays
  {
    seq(Week.NumDays, d requires 0 <= d < Week.NumDays => DayStatOf(g, d))
  }

  /** The lesson counts of the days from `d` on. */
  function LessonsFrom(r: seq<DayStat>, d: nat): nat
    requires d <= |r|
    decreases |r| - d
  {
    if d == |r| then 0 else r[d].lessons + LessonsFrom(r, d + 1)
  }

  /** Occupied cells from day `d` on. */
  lemma {:induction false} LessonsFromDay(g: seq<Cell>, d: nat)
    requires IsGrid(g) && d <= Week.NumDays
    ensures LessonsFrom(DayStats(g), d) == Occupied(g[4 * d..])
    decreases Week.NumDays - d
  {
    if d < Week.NumDays {
      LessonsFromDay(g, d + 1);
      assert g[4 * d..] == Row(g, d) + g[4 * d + 4..];
      CountAppend(Row(g, d), g[4 * d + 4..], None);
    } else {
      assert g[4 * d..] == [];
    }
  }

  /** Every day row names its day; its lessons and free slots make up the
      four slots; its percentage lies in [0, 100] and is 100 exactly when
      nothing is free; the lessons of the five rows add up to the occupied
      cells of the grid. */
  lemma {:induction false} DayStatsFacts(g: seq<Cell>)
    requires IsGrid(g)
    ensures var r := DayStats(g);
            && (forall d :: 0 <= d < Week.NumDays ==>
                  && r[d].day == Week.DayNames[d]
                  && r[d].lessons + r[d].free == Week.NumSlots
                  && 0 <= r[d].free
                  && 0.0 <= r[d].percent <= 100.0
                  && (r[d].percent == 100.0 <==> r[d].free == 0))
            && LessonsFrom(r, 0) == Occupied(g)
  {
    LessonsFromDay(g, 0);
    assert g[0..] == g;
  }

  // ---------------------------------------------------------------- per subject

  /** A row of `Stats_Por_Disciplina`. */
  datatype SubjectStat = SubjectStat(
    code: string,
    name: string,
    teacher: Option<string>,
    planned: int,
    given: nat,
    complete: bool,
    difference: int)

  /** The name of the first teacher, in dictionary order, whose subject is
      `code`; `None` when nobody teaches it. */
  function FirstTeacherName(teachers: seq<Teacher>, code: string): (r: Option<string>)
    ensures r.None? <==> forall i :: 0 <= i < |teachers| ==> teachers[i].subject != code
    ensures r.Some? ==> exists i :: 0 <= i < |teachers| && teachers[i].subject == code && teachers[i].name == r.value
                                    && forall j :: 0 <= j < i ==> teachers[j].subject != code
  {
    if teachers == [] then None
    else if teachers[0].subject == code then Some(teachers[0].name)
    else
      var r := FirstTeacherName(teachers[1..], code);
      assert forall j :: 1 <= j < |teachers| ==> teachers[j] == teachers[1..][j - 1];
      r
  }

  /** `FirstTeacherName` names the teacher whose code `FirstTeacher`
      gives. */
  lemma {:induction false} FirstTeacherAgrees(teachers: seq<Teacher>, code: string)
    ensures FirstTeacherName(teachers, code).Some? <==> FirstTeacher(teachers, code).Some?
    ensures FirstTeacher(teachers, code).Some? ==>
              exists i :: 0 <= i < |teachers| && teachers[i].code == FirstTeacher(teachers, code).value
                          && teachers[i].name == FirstTeacherName(teachers, code).value
  {
    if teachers != [] && teachers[0].subject != code {
      FirstTeacherAgrees(teachers[1..], code);
      if FirstTeacher(teachers, code).Some? {
        var i :| 0 <= i < |teachers[1..]| && teachers[1..][i].code == FirstTeacher(teachers, code).value
                 && teachers[1..][i].name == FirstTeacherName(teachers, code).value;
        assert teachers[i + 1] == teachers[1..][i];
      }
    }
  }

  function SubjectStatOf(cat: Catalog, g: seq<Cell>, s: Subject): SubjectStat
  {
    var n := SubjectCount(g, s.code);
    SubjectStat(s.code, s.name, FirstTeacherName(cat.teachers, s.code), s.hours, n, n >= s.hours, n - s.hours)
  }

  function SubjectStats(cat: Catalog, g: seq<Cell>): (r: seq<SubjectStat>)
    ensures |r| == |cat.subjects|
  {
    seq(|cat.subjects|, i requires 0 <= i < |cat.subjects| => SubjectStatOf(cat, g, cat.subjects[i]))
  }

  /** The subjects marked `COMPLETA` among the first `n` rows. */
  function CompleteRows(r: seq<SubjectStat>, n: nat): nat
    requires n <= |r|
  {
    if n == 0 then 0 else CompleteRows(r, n - 1) + (if r[n - 1].complete then 1 else 0)
  }

  lemma {:induction false} CompleteRowsCount(cat: Catalog, g: seq<Cell>, n: nat)
    requires n <= |cat.subjects|
    ensures CompleteRows(SubjectStats(cat, g), n) == Completed(cat.subjects[..n], GridCount(g))
  {
    if n > 0 {
      CompleteRowsCount(cat, g, n - 1);
      assert cat.subjects[..n][..n - 1] == cat.subjects[..n - 1];
    }
  }

  /** One row per subject of the table, in order, with its code, name,
      load and the lessons the grid gives it; `COMPLETA` exactly when the
      difference is not negative; the `COMPLETA` rows are as many as the
      subjects the completeness ratio counts, and all rows are `COMPLETA`
      exactly when every subject has its load. */
  lemma {:induction false} SubjectStatsFacts(cat: Catalog, g: seq<Cell>)
    ensures var r := SubjectStats(cat, g);
            && (forall i :: 0 <= i < |r| ==>
                  && r[i].code == cat.subjects[i].code && r[i].name == cat.subjects[i].name
                  && r[i].planned == cat.subjects[i].hours
                  && r[i].given == SubjectCount(g, cat.subjects[i].code)
                  && r[i].difference == r[i].given - r[i].planned
                  && (r[i].complete <==> r[i].difference >= 0)
                  && (r[i].teacher.None? <==> FirstTeacher(cat.teachers, cat.subjects[i].code).None?))
            && CompleteRows(r, |r|) == Completed(cat.subjects, GridCount(g))
            && ((forall i :: 0 <= i < |r| ==> r[i].complete) <==> AllComplete(cat.subjects, g))
  {
    var r := SubjectStats(cat, g);
    forall i | 0 <= i < |r|
      ensures r[i].teacher.None? <==> FirstTeacher(cat.teachers, cat.subjects[i].code).None?
    {
      FirstTeacherAgrees(cat.teachers, cat.subjects[i].code);
    }
    CompleteRowsCount(cat, g, |r|);
    assert cat.subjects[..|r|] == cat.subjects;
  }

  // ---------------------------------------------------------------- per teacher

  /** `Concentracao`: `ALTA`, `MEDIA` or `BAIXA`. */
  datatype Level = High | Medium | Low

  /** A row of `Stats_Por_Professor`. */
  datatype TeacherStat = TeacherStat(
    code: string,
    name: string,
    subject: string,
    lessons: nat,
    days: nat,
    mean: real,
    level: Level)

  function LevelOf(days: nat): (l: Level)
    ensures l == High <==> days <= 2
    ensures l == Low <==> days > 3
  {
    if days <= 2 then High else if days <= 3 then Medium else Low
  }

  /** `aulas_por_professor.get(t, 0)`. */
  function TeacherLessons(g: seq<Cell>, t: Option<string>): nat
  {
    Count(TeacherList(g), t)
  }

  /** The row of teacher `p`; `None` for the `KeyError` of a subject code
      missing from the table. */
  function TeacherStatOf(cat: Catalog, g: seq<Cell>, p: Teacher): Option<TeacherStat>
    requires IsGrid(g)
  {
    match SubjectIndex(cat.subjects, p.subject)
    case None => None
    case Some(i) =>
      var n := TeacherLessons(g, Some(p.code));
      var d := DaysWorked(g, Some(p.code), Week.NumDays);
      Some(TeacherStat(p.code, p.name, cat.subjects[i].name, n, d, n as real / Max(d, 1) as real, LevelOf(d)))
  }

  function TeacherEntries(cat: Catalog, g: seq<Cell>): (r: seq<Option<TeacherStat>>)
    requires IsGrid(g)
    ensures |r| == |cat.teachers|
  {
    seq(|cat.teachers|, i requires 0 <= i < |cat.teachers| => TeacherStatOf(cat, g, cat.teachers[i]))
  }

  function TeacherStats(cat: Catalog, g: seq<Cell>): Option<seq<TeacherStat>>
    requires IsGrid(g)
  {
    Collect(TeacherEntries(cat, g))
  }

  lemma {:induction false} TeacherListAppend(a: seq<Cell>, b: seq<Cell>)
    ensures TeacherList(a + b) == TeacherList(a) + TeacherList(b)
    decreases |b|
  {
    if b == [] {
      assert a + b == a;
    } else {
      var init := b[..|b| - 1];
      TeacherListAppend(a, init);
      assert (a + b)[..|a + b| - 1] == a + init;
    }
  }

  lemma {:induction false} TeacherListLength(s: seq<Cell>)
    ensures |TeacherList(s)| <= |s|
  {
    if s != [] {
      TeacherListLength(s[..|s| - 1]);
    }
  }

  /** A teacher gives between one and four lessons on a day they work, and
      none on another. */
  lemma {:induction false} RowLessons(g: seq<Cell>, t: Option<string>, d: nat)
    requires IsGrid(g) && Week.IsDay(d)
    ensures WorksOn(g, t, d) ==> 1 <= Count(TeacherList(Row(g, d)), t) <= Week.NumSlots
    ensures !WorksOn(g, t, d) ==> Count(TeacherList(Row(g, d)), t) == 0
  {
    var row := Row(g, d);
    TeacherListMembers(row, t);
    TeacherListLength(row);
  }

  lemma {:induction false} TeacherLoadFrom(g: seq<Cell>, t: Option<string>, e: nat)
    requires IsGrid(g) && e <= Week.NumDays
    ensures DaysWorked(g, t, e) <= TeacherLessons(g[..4 * e], t) <= Week.NumSlots * DaysWorked(g, t, e)
  {
    if e > 0 {
      var k := 4 * (e - 1);
      TeacherLoadFrom(g, t, e - 1);
      assert g[..k + 4] == g[..k] + Row(g, e - 1);
      TeacherListAppend(g[..k], Row(g, e - 1));
      CountAppend(TeacherList(g[..k]), TeacherList(Row(g, e - 1)), t);
      RowLessons(g, t, e - 1);
    }
  }

  /** A teacher works at least one day per four lessons and at most one
      day per lesson. */
  lemma {:induction false} TeacherLoad(g: seq<Cell>, t: Option<string>)
    requires IsGrid(g)
    ensures DaysWorked(g, t, Week.NumDays) <= TeacherLessons(g, t) <= Week.NumSlots * DaysWorked(g, t, Week.NumDays)
  {
    TeacherLoadFrom(g, t, Week.NumDays);
    assert g[..20] == g;
  }

  /** The sheet exists exactly when every teacher's subject is in the table;
      then there is one row per teacher, in order, and each teacher's days
      are at most five, at most the lessons and at least a quarter of
      them; the mean per day lies in [0, 4], and is at least 1 for a
      teacher with lessons. */
  lemma {:induction false} TeacherStatsFacts(cat: Catalog, g: seq<Cell>)
    requires IsGrid(g)
    ensures TeacherStats(cat, g).None? <==> exists i :: 0 <= i < |cat.teachers| && SubjectIndex(cat.subjects, cat.teachers[i].subject).None?
    ensures TeacherStats(cat, g).Some? ==>
              var r := TeacherStats(cat, g).value;
              && |r| == |cat.teachers|
              && forall i :: 0 <= i < |r| ==>
                   && r[i].code == cat.teachers[i].code && r[i].name == cat.teachers[i].name
                   && r[i].lessons == TeacherLessons(g, Some(cat.teachers[i].code))
                   && r[i].days <= Week.NumDays
                   && r[i].days <= r[i].lessons <= Week.NumSlots * r[i].days
                   && 0.0 <= r[i].mean <= 4.0
                   && (r[i].lessons > 0 ==> r[i].mean >= 1.0)
  {
    var xs := TeacherEntries(cat, g);
    assert forall i :: 0 <= i < |xs| ==> xs[i] == TeacherStatOf(cat, g, cat.teachers[i]);
    if TeacherStats(cat, g).Some? {
      var r := TeacherStats(cat, g).value;
      forall i | 0 <= i < |r|
        ensures r[i].days <= r[i].lessons <= Week.NumSlots * r[i].days
        ensures 0.0 <= r[i].mean <= 4.0 && (r[i].lessons > 0 ==> r[i].mean >= 1.0)
      {
        assert xs[i] == TeacherStatOf(cat, g, cat.teachers[i]) == Some(r[i]);
        TeacherLoad(g, Some(cat.teachers[i].code));
        MeanBounds(r[i].lessons, r[i].days);
      }
    }
  }

  lemma {:induction false} MeanBounds(n: nat, d: nat)
    requires d <= Week.NumDays && d <= n <= 4 * d
    ensures 0.0 <= n as real / Max(d, 1) as real <= 4.0
    ensures n > 0 ==> n as real / Max(d, 1) as real >= 1.0
  {
    if d <= 1 {
    } else if d == 2 {
    } else if d == 3 {
    } else if d == 4 {
    } else {
    }
  }

  // ---------------------------------------------------------------- the sheets together

  datatype Report = Report(days: seq<DayStat>, subjects: seq<SubjectStat>, teachers: seq<TeacherStat>)

  /** `criar_planilha_estatisticas`: the three sheets, or `None` when the
      teacher sheet raises. */
  function Statistics(cat: Catalog, g: seq<Cell>): (r: Option<Report>)
    requires IsGrid(g)
  {
    match TeacherStats(cat, g)
    case None => None
    case Some(ts) => Some(Report(DayStats(g), SubjectStats(cat, g), ts))
  }

  // ---------------------------------------------------------------- the loops

  /** The `stats_dia` loop. */
  method DayStatsLoop(a: array2<Cell>) returns (r: seq<DayStat>)
    requires IsWeek(a)
    ensures r == DayStats(Cells(a))
  {
    ghost var want := DayStats(Cells(a));
    r := [];
    for d := 0 to Week.NumDays
      invariant r == want[..d]
    {
      var n := DayLoad(a, d);
      var row := DayStatFor(d, n);
      PrefixNext(want, d, row);
      r := r + [row];
    }
    assert want[..Week.NumDays] == want;
  }

  /** `for prof in professores.values()`, stopping at the first teacher of
      subject `code`. */
  method FindTeacherName(teachers: seq<Teacher>, code: string) returns (r: Option<string>)
    ensures r == FirstTeacherName(teachers, code)
  {
    for i := 0 to |teachers|
      invariant FirstTeacherName(teachers[i..], code) == FirstTeacherName(teachers, code)
    {
      assert teachers[i..][0] == teachers[i] && teachers[i..][1..] == teachers[i + 1..];
      if teachers[i].subject == code {
        return Some(teachers[i].name);
      }
    }
    assert teachers[|teachers|..] == [];
    r := None;
  }

  /** The `stats_disciplina` loop, reading the subject counts. */
  method SubjectStatsLoop(cat: Catalog, a: array2<Cell>) returns (r: seq<SubjectStat>)
    requires IsWeek(a)
    ensures r == SubjectStats(cat, Cells(a))
  {
    ghost var want := SubjectStats(cat, Cells(a));
    var counts := GridRepair.CountSubjects(a);
    r := [];
    for i := 0 to |cat.subjects|
      invariant r == want[..i]
    {
      var s := cat.subjects[i];
      var n := GridRepair.Get(counts, s.code);
      var name := FindTeacherName(cat.teachers, s.code);
      var row := SubjectStat(s.code, s.name, name, s.hours, n, n >= s.hours, n - s.hours);
      PrefixNext(want, i, row);
      r := r + [row];
    }
    assert want[..|cat.subjects|] == want;
  }

  /** `aulas_por_professor[t]`, zero when `t` is not a key. */
  function LessonsIn(counts: map<Option<string>, nat>, t: Option<string>): nat
  {
    if t in counts then counts[t] else 0
  }

  /** One more cell in `aulas_por_professor`. */
  lemma {:induction false} LessonsStep(a: array2<Cell>, d: nat, h: nat, t: Option<string>)
    requires IsWeek(a) && Week.IsDay(d) && Week.IsSlot(h)
    ensures TeacherLessons(Cells(a)[..4 * d + h + 1], t)
            == TeacherLessons(Cells(a)[..4 * d + h], t) + (if a[d, h].Some? && a[d, h].value.teacher == t then 1 else 0)
  {
    var g := Cells(a);
    var k := 4 * d + h;
    CellAt(a, d, h);
    TeacherListSnoc(g, k);
    if g[k].Some? {
      CountAppend(TeacherList(g[..k]), [g[k].value.teacher], t);
    } else {
      assert TeacherList(g[..k]) + [] == TeacherList(g[..k]);
    }
  }

  /** The `aulas_por_professor` loop. */
  method CountTeacherLessons(a: array2<Cell>) returns (counts: map<Option<string>, nat>)
    requires IsWeek(a)
    ensures forall t :: LessonsIn(counts, t) == TeacherLessons(Cells(a), t)
  {
    counts := map[];
    for d := 0 to Week.NumDays
      invariant forall t :: LessonsIn(counts, t) == TeacherLessons(Cells(a)[..4 * d], t)
    {
      for h := 0 to Week.NumSlots
        invariant forall t :: LessonsIn(counts, t) == TeacherLessons(Cells(a)[..4 * d + h], t)
      {
        counts := VisitLessons(a, d, h, counts);
      }
    }
    assert Cells(a)[..20] == Cells(a);
  }

  /** One cell of the `aulas_por_professor` loop. */
  method VisitLessons(a: array2<Cell>, d: nat, h: nat, counts: map<Option<string>, nat>) returns (counts': map<Option<string>, nat>)
    requires IsWeek(a) && Week.IsDay(d) && Week.IsSlot(h)
    requires forall t :: LessonsIn(counts, t) == TeacherLessons(Cells(a)[..4 * d + h], t)
    ensures forall t :: LessonsIn(counts', t) == TeacherLessons(Cells(a)[..4 * d + h + 1], t)
  {
    counts' := counts;
    var c := a[d, h];
    if c.Some? {
      var prof := c.value.teacher;
      counts' := counts[prof := LessonsIn(counts, prof) + 1];
    }
    forall t ensures LessonsIn(counts', t) == TeacherLessons(Cells(a)[..4 * d + h + 1], t) {
      LessonsStep(a, d, h, t);
      assert LessonsIn(counts', t) == LessonsIn(counts, t) + (if c.Some? && c.value.teacher == t then 1 else 0);
    }
  }

  /** The `stats_professor` loop, reading both dictionaries; it raises at
      the first teacher whose subject is not in the table. */
  method TeacherStatsLoop(cat: Catalog, a: array2<Cell>) returns (r: Option<seq<TeacherStat>>)
    requires IsWeek(a)
    ensures r == TeacherStats(cat, Cells(a))
  {
    ghost var xs := TeacherEntries(cat, Cells(a));
    var lessons := CountTeacherLessons(a);
    var days, order := TeacherDays(a);
    var rows: seq<TeacherStat> := [];
    assert xs[..0] == [];
    for i := 0 to |cat.teachers|
      invariant Collect(xs[..i]) == Some(rows)
    {
      var p := cat.teachers[i];
      var k := SubjectIndex(cat.subjects, p.subject);
      if k.None? {
        assert xs[i].None?;
        return None;
      }
      var n := LessonsIn(lessons, Some(p.code));
      var dw := |DaysIn(days, Some(p.code))|;
      var row := TeacherStat(p.code, p.name, cat.subjects[k.value].name, n, dw, n as real / Max(dw, 1) as real, LevelOf(dw));
      assert xs[i] == Some(row);
      assert xs[..i + 1] == xs[..i] + [Some(row)];
      CollectSnoc(xs[..i], rows, row);
      rows := rows + [row];
    }
    assert xs[..|cat.teachers|] == xs;
    r := Some(rows);
  }

  /** `criar_planilha_estatisticas` as the source runs it. */
  method StatisticsOf(cat: Catalog, a: array2<Cell>) returns (r: Option<Report>)
    requires IsWeek(a)
    ensures r == Statistics(cat, Cells(a))
  {
    var ds := DayStatsLoop(a);
    var ss := SubjectStatsLoop(cat, a);
    var ts := TeacherStatsLoop(cat, a);
    if ts.None? {
      return None;
    }
    r := Some(Report(ds, ss, ts.value));
  }
}
