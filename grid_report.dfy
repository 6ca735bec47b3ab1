/** The workbook written for a grid agenda (`salvar_agenda_excel`,
    `criar_planilha_grade_visual`): one row per cell of the week in
    row-major order, the lesson rows alone, one sheet per day, the visual
    5 x 4 grid and the statistics sheets. The rows are built before the
    workbook is opened, so a failed lookup there raises out of the call;
    a failure while writing the sheets is caught and the call returns
    `None`. */
module GridReport {
  import opened Wrappers
  import opened Counting
  import opened Records
  import opened GridGenome
  import opened GridMetrics
  import opened GridStatistics
  import Week

  /** The text of a free slot. */
  const Free: string := "LIVRE"

  /** A row of `Agenda_Completa`. */
  datatype AgendaRow = AgendaRow(
    day: string,
    time: string,
    subjectCode: Option<string>,
    subjectName: string,
    teacherCode: Option<string>,
    teacherName: string,
    room: Option<string>,
    load: Option<int>,
    cohort: Option<string>,
    position: string)

  /** The decimal digit of `n`. */
  function Digit(n: nat): (c: char)
    requires n < 10
    ensures '0' <= c <= '9'
  {
    (('0' as int) + n) as char
  }

  /** `Slot_Posicao`: `f"{dia}_{horario}"`. */
  function Position(d: nat, h: nat): (s: string)
    requires Week.IsDay(d) && Week.IsSlot(h)
    ensures |s| == 3 && s[1] == '_'
    ensures s[0] as int == '0' as int + d && s[2] as int == '0' as int + h
  {
    [Digit(d), '_', Digit(h)]
  }

  /** Different cells have different positions. */
  lemma {:induction false} PositionsDistinct(d: nat, h: nat, d': nat, h': nat)
    requires Week.IsDay(d) && Week.IsSlot(h) && Week.IsDay(d') && Week.IsSlot(h')
    ensures Position(d, h) == Position(d', h') <==> d == d' && h == h'
  {
    if Position(d, h) == Position(d', h') {
      assert Position(d, h)[0] == Position(d', h')[0];
      assert Position(d, h)[2] == Position(d', h')[2];
    }
  }

  /** A free cell, or a lesson whose subject and teacher are both in the
      catalog: `disciplinas[aula.disciplina]` and
      `professores[aula.professor]` do not raise. */
  predicate Resolvable(cat: Catalog, c: Cell)
  {
    c.None? || (SubjectIndex(cat.subjects, c.value.subject).Some? && TeacherByCode(cat.teachers, c.value.teacher).Some?)
  }

  /** The row of cell (d, h); `None` for a failed lookup. */
  function AgendaEntry(cat: Catalog, c: Cell, d: nat, h: nat): (r: Option<AgendaRow>)
    requires Week.IsDay(d) && Week.IsSlot(h)
    ensures r.None? <==> !Resolvable(cat, c)
  {
    match c
    case None =>
      Some(AgendaRow(Week.DayNames[d], Week.SlotNames[h], None, Free, None, Free, None, None, None, Position(d, h)))
    case Some(l) =>
      match SubjectIndex(cat.subjects, l.subject)
      case None => None
      case Some(i) =>
        match TeacherByCode(cat.teachers, l.teacher)
        case None => None
        case Some(t) =>
          var s := cat.subjects[i];
          Some(AgendaRow(Week.DayNames[d], Week.SlotNames[h], Some(l.subject), s.name, l.teacher, t.name,
                         Some(l.room), Some(s.hours), Some(s.cohort), Position(d, h)))
  }

  function AgendaEntries(cat: Catalog, g: seq<Cell>): (r: seq<Option<AgendaRow>>)
    requires IsGrid(g)
    ensures |r| == Week.NumCells
  {
    seq(Week.NumCells, k requires 0 <= k < Week.NumCells => AgendaEntry(cat, g[k], k / 4, k % 4))
  }

  /** `dados_agenda`: the twenty rows, or `None` for the `KeyError` of the
      first lesson whose subject or teacher is not in the catalog. */
  function AgendaRows(cat: Catalog, g: seq<Cell>): Option<seq<AgendaRow>>
    requires IsGrid(g)
  {
    Collect(AgendaEntries(cat, g))
  }

  /** What the rows say about cell `k`. */
  predicate RowDescribes(cat: Catalog, g: seq<Cell>, rows: seq<AgendaRow>, k: nat)
    requires IsGrid(g) && |rows| == Week.NumCells && k < Week.NumCells
  {
    var r := rows[k];
    && r.day == Week.DayNames[k / 4] && r.time == Week.SlotNames[k % 4] && r.position == Position(k / 4, k % 4)
    && (g[k].None? ==> r.subjectName == Free && r.teacherName == Free && r.subjectCode.None? && r.teacherCode.None? && r.room.None?
                       && r.load.None? && r.cohort.None?)
    && (g[k].Some? ==>
          && SubjectIndex(cat.subjects, g[k].value.subject).Some?
          && r.subjectCode == Some(g[k].value.subject)
          && r.subjectName == cat.subjects[SubjectIndex(cat.subjects, g[k].value.subject).value].name
          && r.load == Some(cat.subjects[SubjectIndex(cat.subjects, g[k].value.subject).value].hours)
          && r.teacherCode == g[k].value.teacher
          && TeacherByCode(cat.teachers, g[k].value.teacher).Some?
          && r.teacherName == TeacherByCode(cat.teachers, g[k].value.teacher).value.name
          && r.room == Some(g[k].value.room)
          && r.cohort == Some(cat.subjects[SubjectIndex(cat.subjects, g[k].value.subject).value].cohort))
  }

  /** The rows exist exactly when every lesson resolves; then there are
      twenty, row `k` is cell `k` in row-major order, a free cell reads
      `LIVRE` with no codes, load or cohort, and a lesson carries its own
      codes and room and its subject's and teacher's names, load and cohort. */
  lemma {:induction false} AgendaRowsShape(cat: Catalog, g: seq<Cell>)
    requires IsGrid(g)
    ensures AgendaRows(cat, g).None? <==> exists k :: 0 <= k < Week.NumCells && !Resolvable(cat, g[k])
    ensures AgendaRows(cat, g).Some? ==>
              var rows := AgendaRows(cat, g).value;
              |rows| == Week.NumCells && forall k :: 0 <= k < Week.NumCells ==> RowDescribes(cat, g, rows, k)
  {
    var xs := AgendaEntries(cat, g);
    assert forall k :: 0 <= k < Week.NumCells ==> xs[k] == AgendaEntry(cat, g[k], k / 4, k % 4);
    if AgendaRows(cat, g).None? {
      var k :| 0 <= k < |xs| && xs[k].None?;
      assert !Resolvable(cat, g[k]);
    } else {
      var rows := AgendaRows(cat, g).value;
      forall k | 0 <= k < Week.NumCells
        ensures RowDescribes(cat, g, rows, k)
      {
        assert xs[k] == AgendaEntry(cat, g[k], k / 4, k % 4) == Some(rows[k]);
      }
    }
  }

  // ---------------------------------------------------------------- the sheets

  /** `Apenas_Aulas`: the rows whose subject name is not `LIVRE`. */
  function LessonRows(rows: seq<AgendaRow>): (r: seq<AgendaRow>)
    ensures forall i :: 0 <= i < |r| ==> r[i] in rows && r[i].subjectName != Free
  {
    if rows == [] then []
    else
      var init := LessonRows(rows[..|rows| - 1]);
      var last := rows[|rows| - 1];
      assert forall x :: x in rows[..|rows| - 1] ==> x in rows;
      if last.subjectName != Free then init + [last] else init
  }

  /** No subject of the table is called `LIVRE`. */
  predicate NoSubjectNamedFree(cat: Catalog)
  {
    forall i :: 0 <= i < |cat.subjects| ==> cat.subjects[i].name != Free
  }

  lemma {:induction false} LessonRowsPrefix(cat: Catalog, g: seq<Cell>, rows: seq<AgendaRow>, k: nat)
    requires IsGrid(g) && |rows| == Week.NumCells && k <= Week.NumCells && NoSubjectNamedFree(cat)
    requires forall j :: 0 <= j < Week.NumCells ==> RowDescribes(cat, g, rows, j)
    ensures |LessonRows(rows[..k])| == Occupied(g[..k])
  {
    if k > 0 {
      LessonRowsPrefix(cat, g, rows, k - 1);
      assert rows[..k][..k - 1] == rows[..k - 1];
      OccupiedSnoc(g, k - 1);
      assert RowDescribes(cat, g, rows, k - 1);
    }
  }

  /** When no subject is called `LIVRE`, the lesson sheet has one row per
      occupied cell. */
  lemma {:induction false} LessonRowsCount(cat: Catalog, g: seq<Cell>)
    requires IsGrid(g) && AgendaRows(cat, g).Some? && NoSubjectNamedFree(cat)
    ensures |LessonRows(AgendaRows(cat, g).value)| == Occupied(g)
  {
    var rows := AgendaRows(cat, g).value;
    AgendaRowsShape(cat, g);
    LessonRowsPrefix(cat, g, rows, Week.NumCells);
    assert rows[..Week.NumCells] == rows;
    assert g[..Week.NumCells] == g;
  }

  /** `Agenda_<dia>`: the rows of day `name`. */
  function DaySheet(rows: seq<AgendaRow>, name: string): (r: seq<AgendaRow>)
    ensures |r| <= |rows|
    ensures forall x :: x in r <==> x in rows && x.day == name
  {
    if rows == [] then []
    else
      var init := DaySheet(rows[..|rows| - 1], name);
      if rows[|rows| - 1].day == name then init + [rows[|rows| - 1]] else init
  }

  lemma {:induction false} DaySheetAppend(a: seq<AgendaRow>, b: seq<AgendaRow>, name: string)
    ensures DaySheet(a + b, name) == DaySheet(a, name) + DaySheet(b, name)
    decreases |b|
  {
    if b == [] {
      assert a + b == a;
    } else {
      var init, last := b[..|b| - 1], b[|b| - 1];
      DaySheetAppend(a, init, name);
      assert (a + b)[..|a + b| - 1] == a + init && (a + b)[|a + b| - 1] == last;
      var kept := if last.day == name then [last] else [];
      assert DaySheet(a + b, name) == DaySheet(a + init, name) + kept;
      assert DaySheet(b, name) == DaySheet(init, name) + kept;
      assert DaySheet(a, name) + (DaySheet(init, name) + kept) == (DaySheet(a, name) + DaySheet(init, name)) + kept;
    }
  }

  /** A block of rows all of one day is kept whole by that day's filter
      and dropped by every other. */
  lemma {:induction false} DaySheetUniform(block: seq<AgendaRow>, day: string, name: string)
    requires forall i :: 0 <= i < |block| ==> block[i].day == day
    ensures DaySheet(block, name) == if day == name then block else []
  {
    if block != [] {
      var init, last := block[..|block| - 1], block[|block| - 1];
      DaySheetUniform(init, day, name);
      assert DaySheet(block, name) == if last.day == name then DaySheet(init, name) + [last] else DaySheet(init, name);
      if day == name {
        assert init + [last] == block;
      }
    }
  }

  /** The sheet of day `d` over the `e`-th block of four rows. */
  lemma {:induction false} DaySheetBlock(rows: seq<AgendaRow>, d: nat, e: nat)
    requires |rows| == Week.NumCells && Week.IsDay(d) && Week.IsDay(e)
    requires forall k :: 0 <= k < Week.NumCells ==> rows[k].day == Week.DayNames[k / 4]
    ensures DaySheet(rows[4 * e..4 * e + 4], Week.DayNames[d]) == if e == d then rows[4 * e..4 * e + 4] else []
  {
    var block := rows[4 * e..4 * e + 4];
    forall i | 0 <= i < 4 ensures block[i].day == Week.DayNames[e] {
      assert (4 * e + i) / 4 == e;
    }
    DaySheetUniform(block, Week.DayNames[e], Week.DayNames[d]);
    Week.DayNamesDistinct();
    assert e != d ==> Week.DayNames[e] != Week.DayNames[d];
  }

  lemma {:induction false} DaySheetBlocks(rows: seq<AgendaRow>, d: nat, e: nat)
    requires |rows| == Week.NumCells && Week.IsDay(d) && e <= Week.NumDays
    requires forall k :: 0 <= k < Week.NumCells ==> rows[k].day == Week.DayNames[k / 4]
    ensures DaySheet(rows[..4 * e], Week.DayNames[d]) == if e > d then rows[4 * d..4 * d + 4] else []
  {
    if e > 0 {
      var k := 4 * (e - 1);
      DaySheetBlocks(rows, d, e - 1);
      assert rows[..k + 4] == rows[..k] + rows[k..k + 4];
      DaySheetAppend(rows[..k], rows[k..k + 4], Week.DayNames[d]);
      DaySheetBlock(rows, d, e - 1);
    } else {
      assert rows[..0] == [];
    }
  }

  /** Each day's sheet is exactly that day's four rows, in slot order. */
  lemma {:induction false} DaySheetRows(cat: Catalog, g: seq<Cell>, d: nat)
    requires IsGrid(g) && AgendaRows(cat, g).Some? && Week.IsDay(d)
    ensures var rows := AgendaRows(cat, g).value;
            DaySheet(rows, Week.DayNames[d]) == rows[4 * d..4 * d + 4]
  {
    var rows := AgendaRows(cat, g).value;
    AgendaRowsShape(cat, g);
    forall k | 0 <= k < Week.NumCells ensures rows[k].day == Week.DayNames[k / 4] {
      assert RowDescribes(cat, g, rows, k);
    }
    DaySheetBlocks(rows, d, Week.NumDays);
    assert rows[..20] == rows;
  }

  // ---------------------------------------------------------------- the visual grid

  const Header: seq<string> := ["HOR\U{C1}RIO"] + Week.DayNames

  /** `s[:n]`. */
  function Truncate(s: string, n: nat): (r: string)
    ensures |r| <= n && |r| <= |s| && r == s[..|r|]
    ensures |s| <= n ==> r == s
  {
    if |s| <= n then s else s[..n]
  }

  /** The text of one cell of `Grade_Visual`: the first fifteen characters
      of the subject name and the teacher's name below it in parentheses,
      or `LIVRE`; `None` for a failed lookup. */
  function ViewText(cat: Catalog, c: Cell): (r: Option<string>)
    ensures r.None? <==> !Resolvable(cat, c)
    ensures c.None? ==> r == Some(Free)
    ensures c.Some? && r.Some? ==>
              var name := cat.subjects[SubjectIndex(cat.subjects, c.value.subject).value].name;
              r.value == Truncate(name, 15) + "\n(" + TeacherByCode(cat.teachers, c.value.teacher).value.name + ")"
  {
    match c
    case None => Some(Free)
    case Some(l) =>
      match SubjectIndex(cat.subjects, l.subject)
      case None => None
      case Some(i) =>
        match TeacherByCode(cat.teachers, l.teacher)
        case None => None
        case Some(t) => Some(Truncate(cat.subjects[i].name, 15) + "\n(" + t.name + ")")
  }

  function ViewCells(cat: Catalog, g: seq<Cell>, h: nat): (r: seq<Option<string>>)
    requires IsGrid(g) && Week.IsSlot(h)
    ensures |r| == Week.NumDays
  {
    seq(Week.NumDays, d requires 0 <= d < Week.NumDays => ViewText(cat, g[4 * d + h]))
  }

  /** The line of slot `h`: its time, then one cell per day. */
  function ViewLine(cat: Catalog, g: seq<Cell>, h: nat): Option<seq<string>>
    requires IsGrid(g) && Week.IsSlot(h)
  {
    match Collect(ViewCells(cat, g, h))
    case None => None
    case Some(cells) => Some([Week.SlotNames[h]] + cells)
  }

  function ViewLines(cat: Catalog, g: seq<Cell>): (r: seq<Option<seq<string>>>)
    requires IsGrid(g)
    ensures |r| == Week.NumSlots
  {
    seq(Week.NumSlots, h requires 0 <= h < Week.NumSlots => ViewLine(cat, g, h))
  }

  /** `dados_grade`: the header and the four slot lines. */
  function GridView(cat: Catalog, g: seq<Cell>): Option<seq<seq<string>>>
    requires IsGrid(g)
  {
    match Collect(ViewLines(cat, g))
    case None => None
    case Some(lines) => Some([Header] + lines)
  }

  /** The line of slot `h` is missing exactly when the lesson of some day
      at that slot does not resolve. */
  lemma {:induction false} ViewLineDefined(cat: Catalog, g: seq<Cell>, h: nat)
    requires IsGrid(g) && Week.IsSlot(h)
    ensures ViewLine(cat, g, h).None? <==> exists d :: 0 <= d < Week.NumDays && !Resolvable(cat, g[4 * d + h])
  {
    var cells := ViewCells(cat, g, h);
    assert ViewLine(cat, g, h).None? <==> Collect(cells).None?;
    if exists d :: 0 <= d < Week.NumDays && !Resolvable(cat, g[4 * d + h]) {
      var d :| 0 <= d < Week.NumDays && !Resolvable(cat, g[4 * d + h]);
      assert cells[d].None?;
    }
  }

  /** The grid is missing exactly when some lesson does not resolve. */
  lemma {:induction false} GridViewDefined(cat: Catalog, g: seq<Cell>)
    requires IsGrid(g)
    ensures GridView(cat, g).None? <==> exists k :: 0 <= k < Week.NumCells && !Resolvable(cat, g[k])
  {
    var lines := ViewLines(cat, g);
    assert GridView(cat, g).None? <==> exists h :: 0 <= h < |lines| && lines[h].None?;
    if GridView(cat, g).None? {
      var h :| 0 <= h < |lines| && lines[h].None?;
      ViewLineDefined(cat, g, h);
      var d :| 0 <= d < Week.NumDays && !Resolvable(cat, g[4 * d + h]);
      assert 4 * d + h < Week.NumCells;
    } else {
      forall k | 0 <= k < Week.NumCells ensures Resolvable(cat, g[k]) {
        var d, h := k / 4, k % 4;
        assert 4 * d + h == k;
        ViewLineDefined(cat, g, h);
        assert lines[h].Some?;
      }
    }
  }

  /** A built line has the slot time and then the cell of each day. */
  lemma {:induction false} ViewLineShape(cat: Catalog, g: seq<Cell>, h: nat)
    requires IsGrid(g) && Week.IsSlot(h) && ViewLine(cat, g, h).Some?
    ensures var line := ViewLine(cat, g, h).value;
            && |line| == 1 + Week.NumDays && line[0] == Week.SlotNames[h]
            && forall d :: 0 <= d < Week.NumDays ==> Some(line[d + 1]) == ViewText(cat, g[4 * d + h])
  {
    var line := ViewLine(cat, g, h).value;
    var cells := Collect(ViewCells(cat, g, h)).value;
    assert line == [Week.SlotNames[h]] + cells;
    forall d | 0 <= d < Week.NumDays ensures Some(line[d + 1]) == ViewText(cat, g[4 * d + h]) {
      assert line[d + 1] == cells[d];
    }
  }

  /** A built grid has the header and four lines of six columns, the slot
      time first and then the cell of each day. */
  lemma {:induction false} GridViewShape(cat: Catalog, g: seq<Cell>)
    requires IsGrid(g) && GridView(cat, g).Some?
    ensures var v := GridView(cat, g).value;
            && |v| == 1 + Week.NumSlots && v[0] == Header
            && forall h :: 0 <= h < Week.NumSlots ==>
                 && |v[h + 1]| == 1 + Week.NumDays && v[h + 1][0] == Week.SlotNames[h]
                 && forall d :: 0 <= d < Week.NumDays ==> Some(v[h + 1][d + 1]) == ViewText(cat, g[4 * d + h])
  {
    var lines := ViewLines(cat, g);
    var ls := Collect(lines).value;
    var v := GridView(cat, g).value;
    assert v == [Header] + ls;
    forall h | 0 <= h < Week.NumSlots
      ensures |v[h + 1]| == 1 + Week.NumDays && v[h + 1][0] == Week.SlotNames[h]
      ensures forall d :: 0 <= d < Week.NumDays ==> Some(v[h + 1][d + 1]) == ViewText(cat, g[4 * d + h])
    {
      assert v[h + 1] == ls[h] && lines[h] == Some(ls[h]);
      ViewLineShape(cat, g, h);
    }
  }

  /** The rows and the visual grid fail for the same catalogs. */
  lemma {:induction false} ViewAgreesWithRows(cat: Catalog, g: seq<Cell>)
    requires IsGrid(g)
    ensures GridView(cat, g).None? <==> AgendaRows(cat, g).None?
  {
    AgendaRowsShape(cat, g);
    GridViewDefined(cat, g);
  }

  // ---------------------------------------------------------------- the workbook

  datatype Workbook = Workbook(
    complete: seq<AgendaRow>,
    lessons: seq<AgendaRow>,
    days: seq<seq<AgendaRow>>,
    view: seq<seq<string>>,
    stats: Report)

  function DaySheets(rows: seq<AgendaRow>): (r: seq<seq<AgendaRow>>)
    ensures |r| == Week.NumDays
  {
    seq(Week.NumDays, d requires 0 <= d < Week.NumDays => DaySheet(rows, Week.DayNames[d]))
  }

  /** `salvar_agenda_excel` without the file: `None` when building the rows
      raises, `Some(None)` when writing a sheet raises and the error is
      caught, and otherwise the sheets written. */
  function Save(cat: Catalog, g: seq<Cell>): Option<Option<Workbook>>
    requires IsGrid(g)
  {
    match AgendaRows(cat, g)
    case None => None
    case Some(rows) =>
      match GridView(cat, g)
      case None => Some(None)
      case Some(v) =>
        match Statistics(cat, g)
        case None => Some(None)
        case Some(st) => Some(Some(Workbook(rows, LessonRows(rows), DaySheets(rows), v, st)))
  }

  /** Saving raises exactly when a lesson does not resolve; once the rows
      exist the visual grid does too, so the caught error comes only from a
      teacher whose subject is missing from the table. A saved workbook has
      the twenty rows, four per day sheet, and when no subject is called
      `LIVRE` one lesson row per occupied cell. */
  lemma {:induction false} SaveOutcome(cat: Catalog, g: seq<Cell>)
    requires IsGrid(g)
    ensures Save(cat, g).None? <==> exists k :: 0 <= k < Week.NumCells && !Resolvable(cat, g[k])
    ensures Save(cat, g) == Some(None) <==>
              (forall k :: 0 <= k < Week.NumCells ==> Resolvable(cat, g[k]))
              && exists i :: 0 <= i < |cat.teachers| && SubjectIndex(cat.subjects, cat.teachers[i].subject).None?
    ensures Save(cat, g).Some? && Save(cat, g).value.Some? ==>
              var wb := Save(cat, g).value.value;
              && |wb.complete| == Week.NumCells
              && (forall d :: 0 <= d < Week.NumDays ==> wb.days[d] == wb.complete[4 * d..4 * d + 4])
              && (NoSubjectNamedFree(cat) ==> |wb.lessons| == Occupied(g))
  {
    AgendaRowsShape(cat, g);
    ViewAgreesWithRows(cat, g);
    TeacherStatsFacts(cat, g);
    if AgendaRows(cat, g).Some? {
      forall d | 0 <= d < Week.NumDays
        ensures DaySheet(AgendaRows(cat, g).value, Week.DayNames[d]) == AgendaRows(cat, g).value[4 * d..4 * d + 4]
      {
        DaySheetRows(cat, g, d);
      }
      if NoSubjectNamedFree(cat) {
        LessonRowsCount(cat, g);
      }
    }
  }

  // ---------------------------------------------------------------- the loops

  /** The `dados_agenda` double loop. */
  method BuildAgendaRows(cat: Catalog, a: array2<Cell>) returns (r: Option<seq<AgendaRow>>)
    requires IsWeek(a)
    ensures r == AgendaRows(cat, Cells(a))
  {
    ghost var xs := AgendaEntries(cat, Cells(a));
    var rows: seq<AgendaRow> := [];
    assert xs[..0] == [];
    for d := 0 to Week.NumDays
      invariant Collect(xs[..4 * d]) == Some(rows)
    {
      for h := 0 to Week.NumSlots
        invariant Collect(xs[..4 * d + h]) == Some(rows)
      {
        CellAt(a, d, h);
        var e := AgendaEntry(cat, a[d, h], d, h);
        assert xs[4 * d + h] == e;
        if e.None? {
          return None;
        }
        PrefixNext(xs, 4 * d + h, e);
        CollectSnoc(xs[..4 * d + h], rows, e.value);
        rows := rows + [e.value];
      }
    }
    assert xs[..20] == xs;
    r := Some(rows);
  }

  /** One line of the `dados_grade` loop. */
  method BuildViewLine(cat: Catalog, a: array2<Cell>, h: nat) returns (r: Option<seq<string>>)
    requires IsWeek(a) && Week.IsSlot(h)
    ensures r == ViewLine(cat, Cells(a), h)
  {
    ghost var xs := ViewCells(cat, Cells(a), h);
    var cells: seq<string> := [];
    assert xs[..0] == [];
    for d := 0 to Week.NumDays
      invariant Collect(xs[..d]) == Some(cells)
    {
      CellAt(a, d, h);
      var text := ViewText(cat, a[d, h]);
      assert xs[d] == text;
      if text.None? {
        return None;
      }
      PrefixNext(xs, d, text);
      CollectSnoc(xs[..d], cells, text.value);
      cells := cells + [text.value];
    }
    assert xs[..Week.NumDays] == xs;
    r := Some([Week.SlotNames[h]] + cells);
  }

  /** `criar_planilha_grade_visual` without the file. */
  method BuildGridView(cat: Catalog, a: array2<Cell>) returns (r: Option<seq<seq<string>>>)
    requires IsWeek(a)
    ensures r == GridView(cat, Cells(a))
  {
    ghost var xs := ViewLines(cat, Cells(a));
    var lines: seq<seq<string>> := [];
    assert xs[..0] == [];
    for h := 0 to Week.NumSlots
      invariant Collect(xs[..h]) == Some(lines)
    {
      var line := BuildViewLine(cat, a, h);
      assert xs[h] == ViewLine(cat, Cells(a), h);
      if line.None? {
        return None;
      }
      PrefixNext(xs, h, line);
      CollectSnoc(xs[..h], lines, line.value);
      lines := lines + [line.value];
    }
    assert xs[..Week.NumSlots] == xs;
    r := Some([Header] + lines);
  }

  /** `salvar_agenda_excel` as the source runs it, without the file. */
  method SaveAgenda(cat: Catalog, a: array2<Cell>) returns (r: Option<Option<Workbook>>)
    requires IsWeek(a)
    ensures r == Save(cat, Cells(a))
  {
    var rows := BuildAgendaRows(cat, a);
    if rows.None? {
      return None;
    }
    var view := BuildGridView(cat, a);
    if view.None? {
      return Some(None);
    }
    var stats := StatisticsOf(cat, a);
    if stats.None? {
      return Some(None);
    }
    r := Some(Some(Workbook(rows.value, LessonRows(rows.value), DaySheets(rows.value), view.value, stats.value)));
  }
}
