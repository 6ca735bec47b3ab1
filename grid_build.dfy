/** Building genomes for the grid optimiser: the list of demanded lessons
    (`_criar_aulas_obrigatorias`), the empty agenda and the randomized
    placement of `criar_cromossomo`. The two shuffles of the source are the
    caller's: `lessons` is the shuffled demand and `order` the shuffled list
    of the twenty cells, each cell given by its row-major position. */
module GridBuild {
  import opened Wrappers
  import opened Counting
  import opened Records
  import opened GridGenome
  import Ranking
  import Week

  /** `_criar_aulas_obrigatorias`: one lesson per hour of every subject, in
      dictionary order, with the subject's first teacher and the first
      room. `None` when a lesson is due and the room table is empty (the
      source raises there). */
  method BuildDemand(cat: Catalog) returns (r: Option<seq<Lesson>>)
    ensures r.None? <==> !HasRoomFor(cat)
    ensures r.Some? ==> r.value == Demand(cat)
  {
    var acc: seq<Lesson> := [];
    var i := 0;
    while i < |cat.subjects|
      invariant 0 <= i <= |cat.subjects|
      invariant acc == DemandFor(cat.teachers, cat.subjects[..i], FirstRoom(cat))
      invariant |cat.rooms| == 0 ==> forall j :: 0 <= j < i ==> cat.subjects[j].hours <= 0
    {
      var s := cat.subjects[i];
      var teacher := FirstTeacher(cat.teachers, s.code);
      var n := 0;
      ghost var before := acc;
      while n < Hours(s)
        invariant 0 <= n <= Hours(s)
        invariant |cat.rooms| == 0 ==> n == 0
        invariant acc == before + Repeat(Lesson(s.code, teacher, FirstRoom(cat)), n)
      {
        if |cat.rooms| == 0 {
          return None;
        }
        var l := Lesson(s.code, teacher, cat.rooms[0].code);
        assert Repeat(l, n + 1) == Repeat(l, n) + [l];
        acc := acc + [l];
        n := n + 1;
      }
      assert cat.subjects[..i + 1][..i] == cat.subjects[..i];
      i := i + 1;
    }
    assert cat.subjects[..i] == cat.subjects;
    return Some(acc);
  }

  /** `criar_agenda_vazia`. */
  method CreateEmptyAgenda() returns (a: array2<Cell>)
    ensures fresh(a) && IsWeek(a)
    ensures forall k :: 0 <= k < Week.NumCells ==> Cells(a)[k] == None
  {
    a := new Cell[Week.NumDays, Week.NumSlots]((d, h) => None);
  }

  // ---------------------------------------------------------------------
  // Placement (criar_cromossomo)
  // ---------------------------------------------------------------------

  predicate IsCellList(free: seq<nat>)
  {
    forall j :: 0 <= j < |free| ==> free[j] < Week.NumCells
  }

  /** Cell `p` can take lesson `l`: it is empty and, when `needAvailable`,
      the lesson's teacher is available there. */
  predicate Fits(av: map<string, seq<Availability>>, g: seq<Cell>, p: nat, l: Lesson, needAvailable: bool)
    requires IsGrid(g) && p < Week.NumCells
  {
    g[p].None? && (!needAvailable || IsAvailable(av, l.teacher, p / 4, p % 4))
  }

  /** The first entry of the free list whose cell fits. */
  function FirstFit(av: map<string, seq<Availability>>, g: seq<Cell>, free: seq<nat>, l: Lesson, needAvailable: bool): (r: Option<nat>)
    requires IsGrid(g) && IsCellList(free)
    ensures r.Some? ==> r.value < |free|
  {
    if free == [] then None
    else if Fits(av, g, free[0], l, needAvailable) then Some(0)
    else
      match FirstFit(av, g, free[1..], l, needAvailable)
      case None => None
      case Some(i) => Some(i + 1)
  }

  lemma {:induction false} FirstFitSpec(av: map<string, seq<Availability>>, g: seq<Cell>, free: seq<nat>, l: Lesson, needAvailable: bool)
    requires IsGrid(g) && IsCellList(free)
    ensures var r := FirstFit(av, g, free, l, needAvailable);
            && (r.None? <==> forall j :: 0 <= j < |free| ==> !Fits(av, g, free[j], l, needAvailable))
            && (r.Some? ==> Fits(av, g, free[r.value], l, needAvailable)
                            && forall j :: 0 <= j < r.value ==> !Fits(av, g, free[j], l, needAvailable))
  {
    if free != [] && !Fits(av, g, free[0], l, needAvailable) {
      FirstFitSpec(av, g, free[1..], l, needAvailable);
      assert forall j :: 1 <= j < |free| ==> free[j] == free[1..][j - 1];
    }
  }

  /** The entry the source picks: an available cell first, any empty one
      otherwise, none when no listed cell is empty. */
  function Choose(av: map<string, seq<Availability>>, g: seq<Cell>, free: seq<nat>, l: Lesson): Option<nat>
    requires IsGrid(g) && IsCellList(free)
  {
    var preferred := FirstFit(av, g, free, l, true);
    if preferred.Some? then preferred else FirstFit(av, g, free, l, false)
  }

  /** The grid once the lessons are placed. `asWritten` selects the loop
      guard: the source's `aulas_alocadas >= len(slots_disponiveis)`, or the
      evidently intended "no free cell is left". */
  function Place(av: map<string, seq<Availability>>, g: seq<Cell>, free: seq<nat>, lessons: seq<Lesson>, placed: nat, asWritten: bool): (r: seq<Cell>)
    requires IsGrid(g) && IsCellList(free)
    ensures IsGrid(r)
    decreases |lessons|
  {
    if lessons == [] || (if asWritten then placed >= |free| else |free| == 0) then g
    else
      match Choose(av, g, free, lessons[0])
      case None => Place(av, g, free, lessons[1..], placed, asWritten)
      case Some(i) =>
        Place(av, g[free[i] := Some(lessons[0])], Ranking.RemoveAt(free, i), lessons[1..], placed + 1, asWritten)
  }

  /** The free list names distinct cells, all of them empty. */
  predicate FreeInv(g: seq<Cell>, free: seq<nat>)
  {
    IsGrid(g) && IsCellList(free) && NoDuplicates(free)
    && forall j :: 0 <= j < |free| ==> g[free[j]].None?
  }

  predicate IsCellOrder(order: seq<nat>)
  {
    |order| == Week.NumCells && IsCellList(order) && NoDuplicates(order)
  }

  /** While the free list is non-empty the source always finds a cell: its
      entries are all empty. */
  lemma {:induction false} ChooseFinds(av: map<string, seq<Availability>>, g: seq<Cell>, free: seq<nat>, l: Lesson)
    requires FreeInv(g, free) && |free| > 0
    ensures Choose(av, g, free, l).Some?
  {
    FirstFitSpec(av, g, free, l, false);
    assert Fits(av, g, free[0], l, false);
  }

  lemma {:induction false} PlaceStep(av: map<string, seq<Availability>>, g: seq<Cell>, free: seq<nat>, l: Lesson, i: nat)
    requires FreeInv(g, free) && i < |free|
    ensures FreeInv(g[free[i] := Some(l)], Ranking.RemoveAt(free, i))
    ensures Placed(g[free[i] := Some(l)]) == Placed(g) + multiset{l}
  {
    PlacedFill(g, free[i], l);
  }

  lemma {:induction false} TakeCons<T>(s: seq<T>, m: nat)
    requires 1 <= m <= |s|
    ensures multiset(s[..m]) == multiset{s[0]} + multiset(s[1..][..m - 1])
  {
    assert s[..m] == [s[0]] + s[1..][..m - 1];
  }

  /** What placement adds: the first `m` lessons, where `m` is bounded by
      the guard. Under the source's guard, with `placed + |free| == 20`,
      the loop stops once `placed` reaches 10. */
  function Added(lessons: seq<Lesson>, free: seq<nat>, placed: nat, asWritten: bool): nat
  {
    if asWritten then Min(|lessons|, if placed <= 10 then 10 - placed else 0) else Min(|lessons|, |free|)
  }

  predicate Stops(lessons: seq<Lesson>, free: seq<nat>, placed: nat, asWritten: bool)
  {
    lessons == [] || (if asWritten then placed >= |free| else |free| == 0)
  }

  predicate PlaceReady(g: seq<Cell>, free: seq<nat>, placed: nat, asWritten: bool)
  {
    FreeInv(g, free) && (asWritten ==> placed + |free| == Week.NumCells && placed <= 10)
  }

  /** One step of placement: the first lesson goes to the chosen cell, and
      the readiness invariant carries over to the rest of the loop. */
  lemma {:induction false} PlaceUnfold(av: map<string, seq<Availability>>, g: seq<Cell>, free: seq<nat>, lessons: seq<Lesson>, placed: nat, asWritten: bool, x: Lesson)
    returns (g': seq<Cell>, free': seq<nat>)
    requires PlaceReady(g, free, placed, asWritten) && !Stops(lessons, free, placed, asWritten)
    ensures PlaceReady(g', free', placed + 1, asWritten)
    ensures 1 <= Added(lessons, free, placed, asWritten) && Added(lessons[1..], free', placed + 1, asWritten) == Added(lessons, free, placed, asWritten) - 1
    ensures Place(av, g, free, lessons, placed, asWritten) == Place(av, g', free', lessons[1..], placed + 1, asWritten)
    ensures Count(g', Some(x)) == Count(g, Some(x)) + (if lessons[0] == x then 1 else 0)
  {
    ChooseFinds(av, g, free, lessons[0]);
    var i := Choose(av, g, free, lessons[0]).value;
    PlaceStep(av, g, free, lessons[0], i);
    g', free' := g[free[i] := Some(lessons[0])], Ranking.RemoveAt(free, i);
    CountUpdate(g, free[i], Some(lessons[0]), Some(x));
  }

  /** Once the guard stops the loop, nothing more is placed. */
  lemma {:induction false} PlaceHalts(av: map<string, seq<Availability>>, g: seq<Cell>, free: seq<nat>, lessons: seq<Lesson>, placed: nat, asWritten: bool)
    requires IsGrid(g) && IsCellList(free) && Stops(lessons, free, placed, asWritten)
    ensures Place(av, g, free, lessons, placed, asWritten) == g
  {
  }

  /** The step the placement loop takes for its next lesson. */
  lemma {:induction false} PlaceNext(av: map<string, seq<Availability>>, g: seq<Cell>, free: seq<nat>, lessons: seq<Lesson>, placed: nat, asWritten: bool)
    requires IsGrid(g) && IsCellList(free) && !Stops(lessons, free, placed, asWritten)
    ensures var c := Choose(av, g, free, lessons[0]);
            && (c.None? ==> Place(av, g, free, lessons, placed, asWritten) == Place(av, g, free, lessons[1..], placed, asWritten))
            && (c.Some? ==> c.value < |free|
                            && Place(av, g, free, lessons, placed, asWritten)
                               == Place(av, g[free[c.value] := Some(lessons[0])], Ranking.RemoveAt(free, c.value), lessons[1..], placed + 1, asWritten))
  {
  }

  /** The count of lesson `x` after one placement step and the rest of the
      loop: the step adds the first lesson, the rest the next `n - 1`. */
  lemma {:induction false} AddsStep(r: seq<Cell>, g: seq<Cell>, g': seq<Cell>, lessons: seq<Lesson>, n: nat, x: Lesson)
    requires 1 <= n <= |lessons|
    requires Count(g', Some(x)) == Count(g, Some(x)) + (if lessons[0] == x then 1 else 0)
    requires Count(r, Some(x)) == Count(g', Some(x)) + Count(lessons[1..][..n - 1], x)
    ensures Count(r, Some(x)) == Count(g, Some(x)) + Count(lessons[..n], x)
  {
    assert lessons[..n][0] == lessons[0] && lessons[..n][1..] == lessons[1..][..n - 1];
  }

  /** Each lesson value is placed once more for every copy of it among the
      first `Added(...)` lessons. */
  lemma {:induction false} PlaceAdds(av: map<string, seq<Availability>>, g: seq<Cell>, free: seq<nat>, lessons: seq<Lesson>, placed: nat, asWritten: bool, x: Lesson)
    requires PlaceReady(g, free, placed, asWritten)
    ensures Count(Place(av, g, free, lessons, placed, asWritten), Some(x)) == Count(g, Some(x)) + Count(lessons[..Added(lessons, free, placed, asWritten)], x)
    decreases |lessons|
  {
    if Stops(lessons, free, placed, asWritten) {
      PlaceHalts(av, g, free, lessons, placed, asWritten);
      assert Added(lessons, free, placed, asWritten) == 0;
    } else {
      var g', free' := PlaceUnfold(av, g, free, lessons, placed, asWritten, x);
      var n := Added(lessons, free, placed, asWritten);
      PlaceAdds(av, g', free', lessons[1..], placed + 1, asWritten, x);
      AddsStep(Place(av, g', free', lessons[1..], placed + 1, asWritten), g, g', lessons, n, x);
    }
  }

  /** Placement adds exactly the first `Added(...)` lessons to the grid. */
  lemma {:induction false} PlacedAfter(av: map<string, seq<Availability>>, g: seq<Cell>, free: seq<nat>, lessons: seq<Lesson>, placed: nat, asWritten: bool)
    requires PlaceReady(g, free, placed, asWritten)
    ensures Placed(Place(av, g, free, lessons, placed, asWritten)) == Placed(g) + multiset(lessons[..Added(lessons, free, placed, asWritten)])
  {
    var r := Place(av, g, free, lessons, placed, asWritten);
    var m := lessons[..Added(lessons, free, placed, asWritten)];
    forall x ensures Placed(r)[x] == (Placed(g) + multiset(m))[x] {
      PlaceAdds(av, g, free, lessons, placed, asWritten, x);
      PlacedCount(r, x);
      PlacedCount(g, x);
      CountMultiset(m, x);
    }
  }

  function EmptyGrid(): (g: seq<Cell>)
    ensures IsGrid(g) && forall k :: 0 <= k < |g| ==> g[k].None?
  {
    seq(Week.NumCells, k => None)
  }

  /** The grid `criar_cromossomo` returns. */
  function Chromosome(av: map<string, seq<Availability>>, lessons: seq<Lesson>, order: seq<nat>, asWritten: bool): seq<Cell>
    requires IsCellOrder(order)
  {
    Place(av, EmptyGrid(), order, lessons, 0, asWritten)
  }

  lemma {:induction false} EmptyPlacesNothing(g: seq<Cell>)
    requires forall k :: 0 <= k < |g| ==> g[k].None?
    ensures Placed(g) == multiset{}
  {
    if g != [] {
      EmptyPlacesNothing(g[..|g| - 1]);
    }
  }

  /** As written, the source places exactly the first min(n, 10) shuffled
      lessons, though the grid has twenty cells. */
  lemma {:induction false} ChromosomeAsWritten(av: map<string, seq<Availability>>, lessons: seq<Lesson>, order: seq<nat>)
    requires IsCellOrder(order)
    ensures var g := Chromosome(av, lessons, order, true);
            Placed(g) == multiset(lessons[..Min(|lessons|, 10)]) && Occupied(g) == Min(|lessons|, 10)
  {
    EmptyPlacesNothing(EmptyGrid());
    PlacedAfter(av, EmptyGrid(), order, lessons, 0, true);
    assert Added(lessons, order, 0, true) == Min(|lessons|, 10);
    var g := Chromosome(av, lessons, order, true);
    PlacedIsCount(g, Lesson("", None, ""));
  }

  /** With the intended guard, min(n, 20) lessons are placed: every lesson
      when the demand fits in the week, a full week otherwise. */
  lemma {:induction false} ChromosomeCorrected(av: map<string, seq<Availability>>, lessons: seq<Lesson>, order: seq<nat>)
    requires IsCellOrder(order)
    ensures var g := Chromosome(av, lessons, order, false);
            Placed(g) == multiset(lessons[..Min(|lessons|, Week.NumCells)]) && Occupied(g) == Min(|lessons|, Week.NumCells)
  {
    EmptyPlacesNothing(EmptyGrid());
    PlacedAfter(av, EmptyGrid(), order, lessons, 0, false);
    assert Added(lessons, order, 0, false) == Min(|lessons|, Week.NumCells);
    var g := Chromosome(av, lessons, order, false);
    PlacedIsCount(g, Lesson("", None, ""));
  }

  /** Eleven lessons and an empty week: the source leaves one lesson out and
      ten cells empty. */
  lemma {:induction false} ChromosomeDropsEleventh(av: map<string, seq<Availability>>, l: Lesson, order: seq<nat>)
    requires IsCellOrder(order)
    ensures var g := Chromosome(av, Repeat(l, 11), order, true);
            Occupied(g) == 10 && Count(g, None) == 10 && Placed(g)[l] == 10
  {
    ChromosomeAsWritten(av, Repeat(l, 11), order);
    var g := Chromosome(av, Repeat(l, 11), order, true);
    assert Repeat(l, 11)[..10] == Repeat(l, 10);
    CountRepeat(l, 10, l);
    CountMultiset(Repeat(l, 10), l);
  }

  /** The first fitting entry of the free list, by the source's scan. */
  method FindSlot(av: map<string, seq<Availability>>, a: array2<Cell>, free: seq<nat>, l: Lesson, needAvailable: bool) returns (r: Option<nat>)
    requires IsWeek(a) && IsCellList(free)
    ensures r == FirstFit(av, Cells(a), free, l, needAvailable)
  {
    FirstFitSpec(av, Cells(a), free, l, needAvailable);
    var i := 0;
    while i < |free|
      invariant 0 <= i <= |free|
      invariant forall j :: 0 <= j < i ==> !Fits(av, Cells(a), free[j], l, needAvailable)
    {
      var p := free[i];
      if a[p / 4, p % 4].None? && (!needAvailable || IsAvailable(av, l.teacher, p / 4, p % 4)) {
        assert Fits(av, Cells(a), free[i], l, needAvailable);
        return Some(i);
      }
      i := i + 1;
    }
    return None;
  }

  /** One turn of the placement loop: look for an available empty cell,
      then for any empty one, and write the lesson there. */
  method PlaceOne(av: map<string, seq<Availability>>, a: array2<Cell>, free: seq<nat>, l: Lesson) returns (i: Option<nat>)
    requires IsWeek(a) && IsCellList(free)
    modifies a
    ensures i == Choose(av, old(Cells(a)), free, l)
    ensures i.Some? ==> i.value < |free| && Cells(a) == old(Cells(a))[free[i.value] := Some(l)]
    ensures i.None? ==> Cells(a) == old(Cells(a))
  {
    i := FindSlot(av, a, free, l, true);
    if i.None? {
      i := FindSlot(av, a, free, l, false);
    }
    if i.Some? {
      SetCell(a, free[i.value], Some(l));
    }
  }

  /** `criar_cromossomo`, with the source's loop guard (`asWritten`) or the
      corrected one. */
  method PlaceLessons(av: map<string, seq<Availability>>, lessons: seq<Lesson>, order: seq<nat>, asWritten: bool) returns (a: array2<Cell>)
    requires IsCellOrder(order)
    ensures fresh(a) && IsWeek(a)
    ensures Cells(a) == Chromosome(av, lessons, order, asWritten)
  {
    a := CreateEmptyAgenda();
    assert Cells(a) == EmptyGrid();
    var free := order;
    var placed := 0;
    var j := 0;
    while j < |lessons|
      invariant 0 <= j <= |lessons| && IsCellList(free)
      invariant Place(av, Cells(a), free, lessons[j..], placed, asWritten) == Chromosome(av, lessons, order, asWritten)
    {
      if (asWritten && placed >= |free|) || (!asWritten && |free| == 0) {
        PlaceHalts(av, Cells(a), free, lessons[j..], placed, asWritten);
        return;
      }
      PlaceNext(av, Cells(a), free, lessons[j..], placed, asWritten);
      assert lessons[j..][1..] == lessons[j + 1..];
      var i := PlaceOne(av, a, free, lessons[j]);
      if i.Some? {
        free := Ranking.RemoveAt(free, i.value);
        placed := placed + 1;
      }
      j := j + 1;
    }
    PlaceHalts(av, Cells(a), free, lessons[j..], placed, asWritten);
  }
}
