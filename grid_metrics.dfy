/** The quality report of a grid agenda (`analisar_qualidade_agenda`):
    five ratios between 0 and 1 — subjects completed, lessons whose
    teacher is available, balance over the days, slots used, teachers
    concentrated on few days — and their weighted mean. Every ratio is a
    function of the twenty cells; the methods walk the 5 x 4 array the
    way the source's double loops do and are proved to compute those
    functions. */
module GridMetrics {
  import opened Wrappers
  import opened Counting
  import opened Records
  import opened GridGenome
  import GridRepair
  import Week

  // ---------------------------------------------------------------- completeness

  /** The subjects whose lesson count, as `count` gives it by code, reaches
      their weekly load (`disciplinas_completas`). */
  function Completed(subjects: seq<Subject>, count: string -> nat): (n: nat)
    ensures n <= |subjects|
  {
    if subjects == [] then 0
    else
      var s := subjects[|subjects| - 1];
      Completed(subjects[..|subjects| - 1], count) + (if count(s.code) >= s.hours then 1 else 0)
  }

  /** Every subject of the table has at least its load. */
  predicate Reached(subjects: seq<Subject>, count: string -> nat)
  {
    forall i :: 0 <= i < |subjects| ==> count(subjects[i].code) >= subjects[i].hours
  }

  /** Every subject is counted as completed exactly when all reach their
      load. */
  lemma {:induction false} CompletedAll(subjects: seq<Subject>, count: string -> nat)
    ensures Completed(subjects, count) == |subjects| <==> Reached(subjects, count)
  {
    if subjects != [] {
      var init := subjects[..|subjects| - 1];
      CompletedAll(init, count);
      assert forall i :: 0 <= i < |init| ==> init[i] == subjects[i];
    }
  }

  /** No subject is counted as completed exactly when none reaches its
      load. */
  lemma {:induction false} CompletedNone(subjects: seq<Subject>, count: string -> nat)
    ensures Completed(subjects, count) == 0 <==> forall i :: 0 <= i < |subjects| ==> count(subjects[i].code) < subjects[i].hours
  {
    if subjects != [] {
      var init := subjects[..|subjects| - 1];
      CompletedNone(init, count);
      assert forall i :: 0 <= i < |init| ==> init[i] == subjects[i];
    }
  }

  /** `n / m` for `0 <= n <= m`, `m > 0`. */
  function Fraction(n: nat, m: nat): (r: real)
    requires 0 < m && n <= m
    ensures 0.0 <= r <= 1.0
    ensures r == 1.0 <==> n == m
    ensures r == 0.0 <==> n == 0
  {
    var r := (n as real) / (m as real);
    assert r * (m as real) == n as real;
    r
  }

  /** `disciplinas_completas / total_disciplinas`; `None` for the
      `ZeroDivisionError` of an empty subject table. */
  function CompletionRatio(subjects: seq<Subject>, count: string -> nat): (r: Option<real>)
    ensures r.None? <==> subjects == []
    ensures r.Some? ==> 0.0 <= r.value <= 1.0
    ensures r.Some? ==> (r.value == 1.0 <==> Reached(subjects, count))
    ensures r.Some? ==> (r.value == 0.0 <==> forall i :: 0 <= i < |subjects| ==> count(subjects[i].code) < subjects[i].hours)
  {
    if subjects == [] then None
    else
      CompletedAll(subjects, count);
      CompletedNone(subjects, count);
      Some(Fraction(Completed(subjects, count), |subjects|))
  }

  /** `aulas_por_disciplina.get(code, 0)` over the grid. */
  function GridCount(g: seq<Cell>): string -> nat
  {
    code => SubjectCount(g, code)
  }

  /** The grid's subjects reach their loads exactly when the fitness
      function calls the grid complete. */
  lemma {:induction false} ReachedGrid(subjects: seq<Subject>, g: seq<Cell>)
    ensures Reached(subjects, GridCount(g)) <==> AllComplete(subjects, g)
  {
    assert forall code :: GridCount(g)(code) == SubjectCount(g, code);
  }

  // ---------------------------------------------------------------- availability

  /** Every occupied cell from `k` on has its teacher available there. */
  predicate RespectedFrom(availability: map<string, seq<Availability>>, g: seq<Cell>, k: nat)
    requires IsGrid(g)
  {
    forall j :: k <= j < Week.NumCells && g[j].Some? ==> IsAvailable(availability, g[j].value.teacher, j / 4, j % 4)
  }

  /** Occupied cells split into the first and the rest. */
  lemma {:induction false} OccupiedCons(g: seq<Cell>, k: nat)
    requires k < |g|
    ensures Occupied(g[k..]) == (if g[k].Some? then 1 else 0) + Occupied(g[k + 1..])
  {
    assert g[k..][1..] == g[k + 1..];
  }

  /** The available count reaches the occupied count exactly when every
      occupied cell is available. */
  lemma {:induction false} AvailableAll(availability: map<string, seq<Availability>>, g: seq<Cell>, k: nat)
    requires IsGrid(g) && k <= |g|
    ensures AvailableFrom(availability, g, k) == Occupied(g[k..]) <==> RespectedFrom(availability, g, k)
    decreases |g| - k
  {
    if k < |g| {
      OccupiedCons(g, k);
      AvailableAll(availability, g, k + 1);
      AvailableAtMostOccupied(availability, g, k + 1);
      var here := g[k].Some? ==> IsAvailable(availability, g[k].value.teacher, k / 4, k % 4);
      assert RespectedFrom(availability, g, k) <==> here && RespectedFrom(availability, g, k + 1);
    } else {
      assert g[k..] == [];
    }
  }

  /** `respeito_disponibilidade`: the available lessons over
      `max(total_aulas, 1)`. */
  function AvailabilityRatio(availability: map<string, seq<Availability>>, g: seq<Cell>): (r: real)
    requires IsGrid(g)
    ensures 0.0 <= r <= 1.0
    ensures r == 1.0 <==> Occupied(g) > 0 && RespectedFrom(availability, g, 0)
    ensures Occupied(g) == 0 ==> r == 0.0
  {
    var n := AvailableFrom(availability, g, 0);
    assert g[0..] == g;
    AvailableAll(availability, g, 0);
    AvailableAtMostOccupied(availability, g, 0);
    Fraction(n, Max(Occupied(g), 1))
  }

  // ---------------------------------------------------------------- balance, use

  /** `equilibrio_distribuicao`: `max(0, (3 - spread) / 3)` for the standard
      deviation `spread` of the per-day counts. The source's other branch,
      for an empty day list, cannot be taken: there are always five days. */
  function Balance(spread: real): (r: real)
    ensures spread >= 0.0 ==> 0.0 <= r <= 1.0
    ensures r == 1.0 <==> spread == 0.0
    ensures r == 0.0 <==> spread >= 3.0
  {
    var x := (3.0 - spread) / 3.0;
    if x > 0.0 then x else 0.0
  }

  /** `utilizacao_slots`: the occupied share of the twenty cells. */
  function Utilisation(g: seq<Cell>): (r: real)
    requires IsGrid(g)
    ensures 0.0 <= r <= 1.0
    ensures r == 1.0 <==> None !in g
    ensures r == 0.0 <==> forall k :: 0 <= k < |g| ==> g[k].None?
  {
    AllFree(g);
    Fraction(Occupied(g), Week.NumCells)
  }

  /** Every cell is free exactly when all of them count as free. */
  lemma {:induction false} AllFree(g: seq<Cell>)
    ensures Count(g, None) == |g| <==> forall k :: 0 <= k < |g| ==> g[k].None?
  {
    if g != [] {
      AllFree(g[1..]);
      assert forall k :: 1 <= k < |g| ==> g[k] == g[1..][k - 1];
    }
  }

  // ---------------------------------------------------------------- concentration

  /** `dias_por_professor[t]` once the cells before `k` are visited: the
      days of those cells that `t` teaches. */
  function DaysOf(g: seq<Cell>, t: Option<string>, k: nat): set<int>
    requires k <= |g|
  {
    if k == 0 then {}
    else DaysOf(g, t, k - 1) + (if g[k - 1].Some? && g[k - 1].value.teacher == t then {(k - 1) / 4} else {})
  }

  /** A day whose cells all lie at `k` or beyond is not yet recorded. */
  lemma {:induction false} DaysOfLater(g: seq<Cell>, t: Option<string>, k: nat, e: nat)
    requires k <= |g| && k <= 4 * e
    ensures e !in DaysOf(g, t, k)
  {
    if k > 0 {
      DaysOfLater(g, t, k - 1, e);
      assert (k - 1) / 4 < e;
    }
  }

  /** Some cell among the first `j` of day `d` is taught by `t`. */
  predicate TeachesBefore(g: seq<Cell>, t: Option<string>, d: nat, j: nat)
    requires IsGrid(g) && Week.IsDay(d) && j <= Week.NumSlots
  {
    var row := Row(g, d);
    exists h :: 0 <= h < j && row[h].Some? && row[h].value.teacher == t
  }

  /** Visiting the first `j` cells of day `d` adds `d` exactly when `t`
      teaches one of them. */
  lemma {:induction false} DaysOfWithin(g: seq<Cell>, t: Option<string>, d: nat, j: nat)
    requires IsGrid(g) && Week.IsDay(d) && j <= Week.NumSlots
    ensures DaysOf(g, t, 4 * d + j) == DaysOf(g, t, 4 * d) + (if TeachesBefore(g, t, d, j) then {d} else {})
  {
    if j > 0 {
      DaysOfWithin(g, t, d, j - 1);
      var k := Week.Pos(d, j - 1);
      assert k == 4 * d + j - 1 && Row(g, d)[j - 1] == g[k];
      assert TeachesBefore(g, t, d, j) <==> TeachesBefore(g, t, d, j - 1) || (g[k].Some? && g[k].value.teacher == t);
    }
  }

  /** Visiting the four cells of day `d` adds `d` exactly when `t` works
      that day. */
  lemma {:induction false} DaysOfRow(g: seq<Cell>, t: Option<string>, d: nat)
    requires IsGrid(g) && Week.IsDay(d)
    ensures DaysOf(g, t, 4 * d + 4) == DaysOf(g, t, 4 * d) + (if WorksOn(g, t, d) then {d} else {})
  {
    DaysOfWithin(g, t, d, 4);
    assert TeachesBefore(g, t, d, 4) == WorksOn(g, t, d);
  }

  /** `len(dias_por_professor[t])` is the number of days `t` works. */
  lemma {:induction false} DaysOfCount(g: seq<Cell>, t: Option<string>, d: nat)
    requires IsGrid(g) && d <= Week.NumDays
    ensures |DaysOf(g, t, 4 * d)| == DaysWorked(g, t, d)
  {
    if d > 0 {
      var e := d - 1;
      var before := DaysOf(g, t, 4 * e);
      DaysOfCount(g, t, e);
      DaysOfRow(g, t, e);
      DaysOfLater(g, t, 4 * e, e);
      assert 4 * e + 4 == 4 * d;
      if WorksOn(g, t, e) {
        assert |before + {e}| == |before| + 1;
      } else {
        assert before + {} == before;
      }
    }
  }

  /** One teacher's share: `max(0, 4 - days) / 4`. */
  function Spare(days: nat): (r: real)
    ensures 0.0 <= r <= 1.0
    ensures days >= 1 ==> r <= 0.75
    ensures r == 0.0 <==> days >= 4
  {
    (if 4 - days > 0 then 4 - days else 0) as real / 4.0
  }

  /** `total_concentracao` over the teacher keys `keys`. */
  function ConcentrationPoints(g: seq<Cell>, keys: seq<Option<string>>): real
    requires IsGrid(g)
  {
    if keys == [] then 0.0
    else ConcentrationPoints(g, keys[..|keys| - 1]) + Spare(DaysWorked(g, keys[|keys| - 1], Week.NumDays))
  }

  /** `concentracao_professores`: the mean share over the distinct teacher
      keys of the lessons, 0 for an empty grid. */
  function Concentration(g: seq<Cell>): real
    requires IsGrid(g)
  {
    var keys := Dedup(TeacherList(g));
    if keys == [] then 0.0 else ConcentrationPoints(g, keys) / (|keys| as real)
  }

  lemma {:induction false} ConcentrationPointsBounds(g: seq<Cell>, keys: seq<Option<string>>)
    requires IsGrid(g)
    requires forall i :: 0 <= i < |keys| ==> keys[i] in TeacherList(g)
    ensures 0.0 <= ConcentrationPoints(g, keys) <= 0.75 * (|keys| as real)
  {
    if keys != [] {
      var t := keys[|keys| - 1];
      ConcentrationPointsBounds(g, keys[..|keys| - 1]);
      TeacherListMembers(g, t);
      var k :| 0 <= k < |g| && g[k].Some? && g[k].value.teacher == t;
      WorksSomeDay(g, t, Week.NumDays, k);
    }
  }

  /** Every teacher that appears works on at least one day, so the mean
      share never exceeds 3/4; a grid without lessons has none. */
  lemma {:induction false} ConcentrationBounds(g: seq<Cell>)
    requires IsGrid(g)
    ensures 0.0 <= Concentration(g) <= 0.75
    ensures (forall k :: 0 <= k < |g| ==> g[k].None?) ==> Concentration(g) == 0.0
  {
    var keys := Dedup(TeacherList(g));
    forall i | 0 <= i < |keys|
      ensures keys[i] in TeacherList(g)
    {
      assert keys[i] in Distinct(keys);
    }
    ConcentrationPointsBounds(g, keys);
    if forall k :: 0 <= k < |g| ==> g[k].None? {
      NoLessonsNoTeachers(g);
    }
  }

  lemma {:induction false} NoLessonsNoTeachers(g: seq<Cell>)
    requires forall k :: 0 <= k < |g| ==> g[k].None?
    ensures TeacherList(g) == []
  {
    if g != [] {
      var init := g[..|g| - 1];
      assert forall k :: 0 <= k < |init| ==> init[k] == g[k];
      NoLessonsNoTeachers(init);
    }
  }

  // ---------------------------------------------------------------- the report

  const CompletenessWeight: real := 0.3
  const AvailabilityWeight: real := 0.25
  const BalanceWeight: real := 0.2
  const UtilisationWeight: real := 0.1
  const ConcentrationWeight: real := 0.15

  /** The `metricas` dictionary. */
  datatype Metrics = Metrics(
    completeness: real,
    availability: real,
    balance: real,
    utilisation: real,
    concentration: real,
    overall: real)

  /** `score_geral`: the weighted mean of the five ratios. The weights sum
      to one, so ratios in [0, 1] give a mean in [0, 1]. */
  function Overall(c: real, a: real, b: real, u: real, k: real): (r: real)
    ensures 0.0 <= c <= 1.0 && 0.0 <= a <= 1.0 && 0.0 <= b <= 1.0 && 0.0 <= u <= 1.0 && 0.0 <= k <= 1.0 ==>
              0.0 <= r <= 1.0 && (r == 1.0 <==> c == 1.0 && a == 1.0 && b == 1.0 && u == 1.0 && k == 1.0)
  {
    c * CompletenessWeight + a * AvailabilityWeight + b * BalanceWeight + u * UtilisationWeight + k * ConcentrationWeight
  }

  /** `analisar_qualidade_agenda`, with numpy's standard deviation of the
      per-day counts supplied as `std`: `None` for the `ZeroDivisionError`
      of an empty subject table. */
  function Quality(cat: Catalog, std: seq<int> -> real, g: seq<Cell>): (r: Option<Metrics>)
    requires IsGrid(g)
  {
    match CompletionRatio(cat.subjects, GridCount(g))
    case None => None
    case Some(c) =>
      var a := AvailabilityRatio(cat.availability, g);
      var b := Balance(std(DayCounts(g)));
      var u := Utilisation(g);
      var k := Concentration(g);
      Some(Metrics(c, a, b, u, k, Overall(c, a, b, u, k)))
  }

  /** The report exists exactly when there are subjects; for a
      non-negative deviation every ratio lies in [0, 1]; completeness is 1 exactly when every subject has its load,
      availability exactly when there are lessons and all are available.
      Because a teacher with a lesson works at least one day, the
      concentration never exceeds 3/4 and the overall score never reaches
      1: it is at most 0.9625. */
  lemma {:induction false} QualityBounds(cat: Catalog, std: seq<int> -> real, g: seq<Cell>)
    requires IsGrid(g) && std(DayCounts(g)) >= 0.0
    ensures Quality(cat, std, g).None? <==> cat.subjects == []
    ensures Quality(cat, std, g).Some? ==>
              var m := Quality(cat, std, g).value;
              && 0.0 <= m.completeness <= 1.0
              && (m.completeness == 1.0 <==> AllComplete(cat.subjects, g))
              && 0.0 <= m.availability <= 1.0
              && (m.availability == 1.0 <==> Occupied(g) > 0 && RespectedFrom(cat.availability, g, 0))
              && 0.0 <= m.balance <= 1.0
              && 0.0 <= m.utilisation <= 1.0
              && 0.0 <= m.concentration <= 0.75
              && 0.0 <= m.overall <= 0.9625
  {
    ReachedGrid(cat.subjects, g);
    ConcentrationBounds(g);
  }

  // ---------------------------------------------------------------- the loops

  /** The loop over `disciplinas.items()` counting complete subjects,
      reading a counts dictionary that holds `count`. */
  method CountCompleted(subjects: seq<Subject>, counts: map<string, nat>, ghost count: string -> nat) returns (n: nat)
    requires forall code :: GridRepair.Get(counts, code) == count(code)
    ensures n == Completed(subjects, count)
  {
    n := 0;
    for i := 0 to |subjects|
      invariant n == Completed(subjects[..i], count)
    {
      assert subjects[..i + 1][..i] == subjects[..i];
      if GridRepair.Get(counts, subjects[i].code) >= subjects[i].hours {
        n := n + 1;
      }
    }
    assert subjects[..|subjects|] == subjects;
  }

  /** One more cell counted. */
  lemma {:induction false} OccupiedSnoc(g: seq<Cell>, k: nat)
    requires k < |g|
    ensures Occupied(g[..k + 1]) == Occupied(g[..k]) + (if g[k].Some? then 1 else 0)
  {
    assert g[..k + 1] == g[..k] + [g[k]];
    CountAppend(g[..k], [g[k]], None);
  }

  /** Cell (d, h) of the array is cell `4 d + h` of the grid. */
  lemma {:induction false} CellAt(a: array2<Cell>, d: nat, h: nat)
    requires IsWeek(a) && Week.IsDay(d) && Week.IsSlot(h)
    ensures 4 * d + h < Week.NumCells && (4 * d + h) / 4 == d && (4 * d + h) % 4 == h
    ensures Cells(a)[4 * d + h] == a[d, h]
  {
  }

  /** One more cell in the `total_aulas` count. */
  lemma {:induction false} OccupiedStep(a: array2<Cell>, d: nat, h: nat)
    requires IsWeek(a) && Week.IsDay(d) && Week.IsSlot(h)
    ensures Occupied(Cells(a)[..4 * d + h + 1]) == Occupied(Cells(a)[..4 * d + h]) + (if a[d, h].Some? then 1 else 0)
  {
    CellAt(a, d, h);
    OccupiedSnoc(Cells(a), 4 * d + h);
  }

  /** The inner loop of `total_aulas`: day `d` adds its occupied cells. */
  method DayOccupied(a: array2<Cell>, d: nat, n0: nat) returns (n: nat)
    requires IsWeek(a) && Week.IsDay(d) && n0 == Occupied(Cells(a)[..4 * d])
    ensures n == Occupied(Cells(a)[..4 * d + 4])
  {
    n := n0;
    for h := 0 to Week.NumSlots
      invariant n == Occupied(Cells(a)[..4 * d + h])
    {
      OccupiedStep(a, d, h);
      if a[d, h].Some? {
        n := n + 1;
      }
    }
  }

  /** `total_aulas`: the occupied cells, day by day and slot by slot. */
  method CountOccupied(a: array2<Cell>) returns (n: nat)
    requires IsWeek(a)
    ensures n == Occupied(Cells(a))
  {
    n := 0;
    for d := 0 to Week.NumDays
      invariant n == Occupied(Cells(a)[..4 * d])
    {
      n := DayOccupied(a, d, n);
    }
    assert Cells(a)[..20] == Cells(a);
  }

  /** Whether cell (d, h) counts towards `aulas_com_disponibilidade`. */
  method AvailableCell(availability: map<string, seq<Availability>>, a: array2<Cell>, ghost g: seq<Cell>, d: nat, h: nat)
    returns (x: nat)
    requires IsWeek(a) && g == Cells(a) && Week.IsDay(d) && Week.IsSlot(h)
    ensures x + AvailableFrom(availability, g, 4 * d + h + 1) == AvailableFrom(availability, g, 4 * d + h)
  {
    CellAt(a, d, h);
    var c := a[d, h];
    x := if c.Some? && IsAvailable(availability, c.value.teacher, d, h) then 1 else 0;
  }

  /** The inner loop of `aulas_com_disponibilidade`: the available lessons of day `d`. */
  method DayAvailable(availability: map<string, seq<Availability>>, a: array2<Cell>, ghost g: seq<Cell>, d: nat)
    returns (n: nat)
    requires IsWeek(a) && g == Cells(a) && Week.IsDay(d)
    ensures n + AvailableFrom(availability, g, 4 * d + 4) == AvailableFrom(availability, g, 4 * d)
  {
    n := 0;
    for h := 0 to Week.NumSlots
      invariant n + AvailableFrom(availability, g, 4 * d + h) == AvailableFrom(availability, g, 4 * d)
    {
      var x := AvailableCell(availability, a, g, d, h);
      n := n + x;
    }
  }

  /** `aulas_com_disponibilidade`: the occupied cells whose teacher is
      available there. */
  method CountAvailable(availability: map<string, seq<Availability>>, a: array2<Cell>) returns (n: nat)
    requires IsWeek(a)
    ensures n == AvailableFrom(availability, Cells(a), 0)
  {
    ghost var g := Cells(a);
    n := 0;
    for d := 0 to Week.NumDays
      invariant n + AvailableFrom(availability, g, 4 * d) == AvailableFrom(availability, g, 0)
    {
      var x := DayAvailable(availability, a, g, d);
      n := n + x;
    }
  }

  /** One more slot in the `aulas_dia` count. */
  lemma {:induction false} DayLoadStep(a: array2<Cell>, d: nat, h: nat)
    requires IsWeek(a) && Week.IsDay(d) && Week.IsSlot(h)
    ensures Occupied(Row(Cells(a), d)[..h + 1]) == Occupied(Row(Cells(a), d)[..h]) + (if a[d, h].Some? then 1 else 0)
  {
    CellAt(a, d, h);
    OccupiedSnoc(Row(Cells(a), d), h);
  }

  /** `aulas_dia`: the occupied cells of day `d`. */
  method DayLoad(a: array2<Cell>, d: nat) returns (n: nat)
    requires IsWeek(a) && Week.IsDay(d)
    ensures n == Occupied(Row(Cells(a), d))
  {
    n := 0;
    for h := 0 to Week.NumSlots
      invariant n == Occupied(Row(Cells(a), d)[..h])
    {
      DayLoadStep(a, d, h);
      if a[d, h].Some? {
        n := n + 1;
      }
    }
    assert Row(Cells(a), d)[..4] == Row(Cells(a), d);
  }

  /** `aulas_por_dia`: the five day loads in order. */
  method DayLoads(a: array2<Cell>) returns (loads: seq<int>)
    requires IsWeek(a)
    ensures loads == DayCounts(Cells(a))
  {
    ghost var want := DayCounts(Cells(a));
    loads := [];
    for d := 0 to Week.NumDays
      invariant loads == want[..d]
    {
      var n := DayLoad(a, d);
      PrefixNext(want, d, n);
      loads := loads + [n];
    }
    assert want[..Week.NumDays] == want;
  }

  /** A prefix grown by the next element. */
  lemma {:induction false} PrefixNext<T>(s: seq<T>, i: nat, x: T)
    requires i < |s| && s[i] == x
    ensures s[..i + 1] == s[..i] + [x]
  {
  }

  /** The days recorded for `t`, none when `t` is not a key. */
  function DaysIn(days: map<Option<string>, set<int>>, t: Option<string>): set<int>
  {
    if t in days then days[t] else {}
  }

  /** What `dias_por_professor` holds once the first `k` cells are
      visited, and the order in which its keys were inserted. */
  ghost predicate DaysAfter(g: seq<Cell>, k: nat, days: map<Option<string>, set<int>>, order: seq<Option<string>>)
    requires k <= |g|
  {
    && order == Dedup(TeacherList(g[..k]))
    && (forall t :: t in days <==> t in TeacherList(g[..k]))
    && (forall t :: DaysIn(days, t) == DaysOf(g, t, k))
  }

  /** The teacher keys of the first `k + 1` cells. */
  lemma {:induction false} TeacherListSnoc(g: seq<Cell>, k: nat)
    requires k < |g|
    ensures TeacherList(g[..k + 1]) == TeacherList(g[..k]) + (if g[k].Some? then [g[k].value.teacher] else [])
  {
    assert g[..k + 1][..k] == g[..k];
  }

  lemma {:induction false} DedupSnoc<K>(s: seq<K>, x: K)
    ensures Dedup(s + [x]) == if x in s then Dedup(s) else Dedup(s) + [x]
  {
    assert (s + [x])[..|s|] == s;
    assert x in Dedup(s) <==> x in Distinct(Dedup(s));
  }

  /** `dias_por_professor` after visiting cell `c` of day `d`. */
  function DaysNext(days: map<Option<string>, set<int>>, c: Cell, d: int): map<Option<string>, set<int>>
  {
    if c.None? then days else days[c.value.teacher := DaysIn(days, c.value.teacher) + {d}]
  }

  /** Its keys in insertion order after visiting cell `c`. */
  function OrderNext(order: seq<Option<string>>, days: map<Option<string>, set<int>>, c: Cell): seq<Option<string>>
  {
    if c.Some? && c.value.teacher !in days then order + [c.value.teacher] else order
  }

  lemma {:induction false} DaysAfterNext(g: seq<Cell>, k: nat, days: map<Option<string>, set<int>>, order: seq<Option<string>>)
    requires k < |g| && DaysAfter(g, k, days, order)
    ensures DaysAfter(g, k + 1, DaysNext(days, g[k], k / 4), OrderNext(order, days, g[k]))
  {
    TeacherListSnoc(g, k);
    if g[k].Some? {
      DaysAfterLesson(g, k, days, order);
    } else {
      assert TeacherList(g[..k + 1]) == TeacherList(g[..k]) + [] == TeacherList(g[..k]);
      forall t ensures DaysIn(days, t) == DaysOf(g, t, k + 1) {
        assert DaysOf(g, t, k + 1) == DaysOf(g, t, k) + {};
      }
    }
  }

  lemma {:induction false} DaysAfterLesson(g: seq<Cell>, k: nat, days: map<Option<string>, set<int>>, order: seq<Option<string>>)
    requires k < |g| && g[k].Some? && DaysAfter(g, k, days, order)
    ensures DaysAfter(g, k + 1, DaysNext(days, g[k], k / 4), OrderNext(order, days, g[k]))
  {
    OrderAfterLesson(g, k, days, order);
    KeysAfterLesson(g, k, days);
    DaysOfAfterLesson(g, k, days);
  }

  /** A new teacher key is appended to the insertion order, a known one is not. */
  lemma {:induction false} OrderAfterLesson(g: seq<Cell>, k: nat, days: map<Option<string>, set<int>>, order: seq<Option<string>>)
    requires k < |g| && g[k].Some? && order == Dedup(TeacherList(g[..k]))
    requires forall t :: t in days <==> t in TeacherList(g[..k])
    ensures OrderNext(order, days, g[k]) == Dedup(TeacherList(g[..k + 1]))
  {
    TeacherListSnoc(g, k);
    DedupSnoc(TeacherList(g[..k]), g[k].value.teacher);
  }

  lemma {:induction false} KeysAfterLesson(g: seq<Cell>, k: nat, days: map<Option<string>, set<int>>)
    requires k < |g| && g[k].Some?
    requires forall t :: t in days <==> t in TeacherList(g[..k])
    ensures forall t :: t in DaysNext(days, g[k], k / 4) <==> t in TeacherList(g[..k + 1])
  {
    TeacherListSnoc(g, k);
  }

  lemma {:induction false} DaysOfAfterLesson(g: seq<Cell>, k: nat, days: map<Option<string>, set<int>>)
    requires k < |g| && g[k].Some?
    requires forall t :: DaysIn(days, t) == DaysOf(g, t, k)
    ensures forall t :: DaysIn(DaysNext(days, g[k], k / 4), t) == DaysOf(g, t, k + 1)
  {
    var prof := g[k].value.teacher;
    forall t ensures DaysIn(DaysNext(days, g[k], k / 4), t) == DaysOf(g, t, k + 1) {
      assert DaysOf(g, t, k + 1) == DaysOf(g, t, k) + (if t == prof then {k / 4} else {});
    }
  }

  /** One cell of the `dias_por_professor` loop. */
  method VisitDays(a: array2<Cell>, d: nat, h: nat, days: map<Option<string>, set<int>>, order: seq<Option<string>>)
    returns (days': map<Option<string>, set<int>>, order': seq<Option<string>>)
    requires IsWeek(a) && Week.IsDay(d) && Week.IsSlot(h)
    requires DaysAfter(Cells(a), 4 * d + h, days, order)
    ensures DaysAfter(Cells(a), 4 * d + h + 1, days', order')
  {
    CellAt(a, d, h);
    DaysAfterNext(Cells(a), 4 * d + h, days, order);
    days', order' := days, order;
    var c := a[d, h];
    if c.Some? {
      var prof := c.value.teacher;
      if prof !in days' {
        days' := days'[prof := {}];
        order' := order' + [prof];
      }
      days' := days'[prof := days'[prof] + {d}];
    }
    assert days' == DaysNext(days, c, d) && order' == OrderNext(order, days, c);
  }

  /** The `dias_por_professor` loop over the whole grid. */
  method TeacherDays(a: array2<Cell>) returns (days: map<Option<string>, set<int>>, order: seq<Option<string>>)
    requires IsWeek(a)
    ensures order == Dedup(TeacherList(Cells(a)))
    ensures forall t :: t in days <==> t in TeacherList(Cells(a))
    ensures forall t :: |DaysIn(days, t)| == DaysWorked(Cells(a), t, Week.NumDays)
  {
    ghost var g := Cells(a);
    days, order := map[], [];
    for d := 0 to Week.NumDays
      invariant DaysAfter(g, 4 * d, days, order)
    {
      for h := 0 to Week.NumSlots
        invariant DaysAfter(g, 4 * d + h, days, order)
      {
        days, order := VisitDays(a, d, h, days, order);
      }
    }
    assert g[..20] == g;
    forall t
      ensures |DaysIn(days, t)| == DaysWorked(g, t, Week.NumDays)
    {
      DaysOfCount(g, t, Week.NumDays);
    }
  }

  /** `concentracao_media` from the days dictionary. */
  method MeanConcentration(days: map<Option<string>, set<int>>, order: seq<Option<string>>, ghost g: seq<Cell>) returns (r: real)
    requires IsGrid(g)
    requires order == Dedup(TeacherList(g))
    requires forall t :: t in days <==> t in TeacherList(g)
    requires forall t :: |DaysIn(days, t)| == DaysWorked(g, t, Week.NumDays)
    ensures r == Concentration(g)
  {
    r := 0.0;
    if order != [] {
      var total := 0.0;
      for j := 0 to |order|
        invariant total == ConcentrationPoints(g, order[..j])
      {
        assert order[j] in Distinct(order);
        assert order[..j + 1][..j] == order[..j];
        assert days[order[j]] == DaysIn(days, order[j]);
        total := total + Spare(|days[order[j]]|);
      }
      assert order[..|order|] == order;
      r := total / (|order| as real);
    }
  }

  /** `analisar_qualidade_agenda` as the source runs it, loop by loop. */
  method AnalyseQuality(cat: Catalog, std: seq<int> -> real, a: array2<Cell>) returns (r: Option<Metrics>)
    requires IsWeek(a)
    ensures r == Quality(cat, std, Cells(a))
  {
    ghost var g := Cells(a);
    var counts := GridRepair.CountSubjects(a);
    var completed := CountCompleted(cat.subjects, counts, GridCount(g));
    if |cat.subjects| == 0 {
      return None;
    }
    var c := Fraction(completed, |cat.subjects|);
    var total := CountOccupied(a);
    var available := CountAvailable(cat.availability, a);
    assert g[0..] == g;
    AvailableAtMostOccupied(cat.availability, g, 0);
    var av := Fraction(available, Max(total, 1));
    var loads := DayLoads(a);
    var b := Balance(std(loads));
    var u := Fraction(total, Week.NumCells);
    var days, order := TeacherDays(a);
    var k := MeanConcentration(days, order, g);
    r := Some(Metrics(c, av, b, u, k, Overall(c, av, b, u, k)));
  }
}
