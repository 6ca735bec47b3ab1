/** The two scorers of the rule-based optimiser; lower is better for both.
    `fitness` charges clashes, unavailable teachers, Friday lessons and
    missing lessons. `calcular_fitness`, the one the evolution uses, weighs
    lessons sharing a slot, the load of each day against four lessons
    (three on Friday), the start of each day at 18:50, gaps, and the
    splitting rule of each subject, credits every lesson, and is floored
    at 0. */
module RuleFitness {
  import opened Wrappers
  import opened Counting
  import opened RuleData
  import Week

  const FridayIndex: Week.DayIndex := 4

  // ---------------------------------------------------------------------
  // `fitness`
  // ---------------------------------------------------------------------

  const ClashCost: nat := 2
  const UnavailableCost: nat := 5
  const FridayCost: nat := 1
  const MissingCost: nat := 50

  /** The (day, slot, room) key of every gene. */
  function RoomKeys(ind: seq<Booking>): (r: seq<(int, int, string)>)
    ensures |r| == |ind|
  {
    seq(|ind|, i requires 0 <= i < |ind| => (ind[i].day, ind[i].slot, ind[i].room))
  }

  /** The (day, slot, teacher) key of every gene. */
  function TeacherKeys(ind: seq<Booking>): (r: seq<(int, int, string)>)
    ensures |r| == |ind|
  {
    seq(|ind|, i requires 0 <= i < |ind| => (ind[i].day, ind[i].slot, ind[i].teacher))
  }

  /** The (day, slot, cohort) key of every gene. */
  function CohortKeys(ind: seq<Booking>): (r: seq<(int, int, string)>)
    ensures |r| == |ind|
  {
    seq(|ind|, i requires 0 <= i < |ind| => (ind[i].day, ind[i].slot, ind[i].cohort))
  }

  predicate Available(av: Option<seq<FreeRecord>>, g: Booking)
  {
    TeacherFree(av, g.teacher, g.day, g.slot)
  }

  /** Number of genes whose teacher is not available where they sit. */
  function Unavailable(av: Option<seq<FreeRecord>>, ind: seq<Booking>): (n: nat)
    ensures n <= |ind|
    ensures n == 0 <==> forall i :: 0 <= i < |ind| ==> Available(av, ind[i])
  {
    if ind == [] then 0
    else
      var n := (if Available(av, ind[0]) then 0 else 1) + Unavailable(av, ind[1..]);
      assert forall i :: 1 <= i < |ind| ==> ind[i] == ind[1..][i - 1];
      n
  }

  /** Number of genes on Friday. */
  function Fridays(ind: seq<Booking>): (n: nat)
    ensures n <= |ind|
    ensures n == 0 <==> forall i :: 0 <= i < |ind| ==> ind[i].day != FridayIndex
  {
    if ind == [] then 0
    else
      var n := (if ind[0].day == FridayIndex then 1 else 0) + Fridays(ind[1..]);
      assert forall i :: 1 <= i < |ind| ==> ind[i] == ind[1..][i - 1];
      n
  }

  /** `aulas_alocadas[(code, cohort)]`: the genes of subject `code` for
      cohort `cohort`. */
  function Lessons(ind: seq<Booking>, code: string, cohort: string): (n: nat)
    ensures n <= |ind|
  {
    if ind == [] then 0
    else (if ind[0].subject == code && ind[0].cohort == cohort then 1 else 0) + Lessons(ind[1..], code, cohort)
  }

  /** The lessons each table row still lacks, for its own cohort; a row
      with more lessons than its load lacks none. */
  function Missing(courses: seq<Course>, ind: seq<Booking>): (n: nat)
    ensures n == 0 <==> forall k :: 0 <= k < |courses| ==> Lessons(ind, courses[k].code, courses[k].cohort) >= courses[k].hours
  {
    if courses == [] then 0
    else
      var c := courses[0];
      var got := Lessons(ind, c.code, c.cohort);
      var n := (if got < c.hours then c.hours - got else 0) + Missing(courses[1..], ind);
      assert forall k :: 1 <= k < |courses| ==> courses[k] == courses[1..][k - 1];
      n
  }

  /** `fitness`. */
  function Penalty(t: Tables, ind: seq<Booking>): nat
  {
    ClashCost * Repeats(RoomKeys(ind)) + ClashCost * Repeats(TeacherKeys(ind)) + ClashCost * Repeats(CohortKeys(ind))
    + UnavailableCost * Unavailable(t.availability, ind) + FridayCost * Fridays(ind)
    + MissingCost * Missing(t.courses, ind)
  }

  /** The clash terms charge the surplus of genes over distinct keys. */
  lemma {:induction false} PenaltyCounts(t: Tables, ind: seq<Booking>)
    ensures Penalty(t, ind)
            == ClashCost * (|ind| - |Distinct(RoomKeys(ind))|) + ClashCost * (|ind| - |Distinct(TeacherKeys(ind))|)
               + ClashCost * (|ind| - |Distinct(CohortKeys(ind))|)
               + UnavailableCost * Unavailable(t.availability, ind) + FridayCost * Fridays(ind)
               + MissingCost * Missing(t.courses, ind)
  {
    RepeatsIsSurplus(RoomKeys(ind));
    RepeatsIsSurplus(TeacherKeys(ind));
    RepeatsIsSurplus(CohortKeys(ind));
  }

  /** The seen-key fold charges nothing exactly when no key repeats. */
  lemma {:induction false} RepeatsZero<K>(keys: seq<K>)
    ensures Repeats(keys) == 0 <==> NoDuplicates(keys)
  {
    RepeatsIsSurplus(keys);
    if NoDuplicates(keys) {
      DedupLength(keys);
    } else {
      DuplicatesShrink(keys);
    }
  }

  /** `fitness` is 0 exactly for a timetable with no repeated room,
      teacher or cohort key, every teacher available, nothing on Friday
      and every row's load met. */
  lemma {:induction false} PenaltyZero(t: Tables, ind: seq<Booking>)
    ensures Penalty(t, ind) == 0
            <==> NoDuplicates(RoomKeys(ind)) && NoDuplicates(TeacherKeys(ind)) && NoDuplicates(CohortKeys(ind))
                 && (forall i :: 0 <= i < |ind| ==> Available(t.availability, ind[i]) && ind[i].day != FridayIndex)
                 && forall k :: 0 <= k < |t.courses| ==> Lessons(ind, t.courses[k].code, t.courses[k].cohort) >= t.courses[k].hours
  {
    RepeatsZero(RoomKeys(ind));
    RepeatsZero(TeacherKeys(ind));
    RepeatsZero(CohortKeys(ind));
  }

  /** Without an availability table nobody is charged as unavailable. */
  lemma {:induction false} PenaltyWithoutAvailability(t: Tables, ind: seq<Booking>)
    requires t.availability.None?
    ensures Unavailable(t.availability, ind) == 0
  {
    forall i | 0 <= i < |ind| ensures Available(t.availability, ind[i]) {
    }
  }

  /** When no two genes share a day and a slot, none of the three keys
      repeats, and `fitness` charges only availability, Friday and missing
      lessons. */
  lemma {:induction false} PenaltyWithoutClash(t: Tables, ind: seq<Booking>)
    requires NoClash(ind)
    ensures Penalty(t, ind) == UnavailableCost * Unavailable(t.availability, ind) + FridayCost * Fridays(ind)
                               + MissingCost * Missing(t.courses, ind)
  {
    assert NoDuplicates(RoomKeys(ind)) && NoDuplicates(TeacherKeys(ind)) && NoDuplicates(CohortKeys(ind));
    RepeatsZero(RoomKeys(ind));
    RepeatsZero(TeacherKeys(ind));
    RepeatsZero(CohortKeys(ind));
  }

  // ---------------------------------------------------------------------
  // `calcular_fitness`
  // ---------------------------------------------------------------------

  const EmptyScore: nat := 10000
  const SharedSlotCost: nat := 2000
  const LessonCredit: nat := 5

  /** The (day, slot) cell of every gene. */
  function Cells(ind: seq<Booking>): (r: seq<(int, int)>)
    ensures |r| == |ind|
  {
    seq(|ind|, i requires 0 <= i < |ind| => (ind[i].day as int, ind[i].slot as int))
  }

  /** The cell at row-major position `k`. */
  function CellAt(k: nat): (int, int)
    requires k < Week.NumCells
  {
    (Week.DayOf(k), Week.SlotOf(k))
  }

  /** `ocupacao_slots`: for each occupied cell from position `k` on, the
      genes in it beyond the first. */
  function SharedFrom(cells: seq<(int, int)>, k: nat): nat
    requires k <= Week.NumCells
    decreases Week.NumCells - k
  {
    if k == Week.NumCells then 0
    else
      var n := Count(cells, CellAt(k));
      (if n > 1 then n - 1 else 0) + SharedFrom(cells, k + 1)
  }

  function SlotShare(ind: seq<Booking>): int
  {
    SharedSlotCost * SharedFrom(Cells(ind), 0)
  }

  /** A lesson of Monday to Thursday: a bonus for exactly four lessons,
      otherwise 100 per lesson away from four. */
  function WeekdayTerm(load: nat): int
  {
    if load == 4 then -200 else if load < 4 then 100 * (4 - load) else 100 * (load - 4)
  }

  /** Friday: a bonus for exactly three lessons, 50 per lesson short,
      200 per lesson over. */
  function FridayTerm(load: nat): int
  {
    if load == 3 then -150 else if load < 3 then 50 * (3 - load) else 200 * (load - 3)
  }

  function LoadTerms(ind: seq<Booking>): int
  {
    WeekdayTerm(|SlotsOn(ind, 0)|) + WeekdayTerm(|SlotsOn(ind, 1)|) + WeekdayTerm(|SlotsOn(ind, 2)|)
    + WeekdayTerm(|SlotsOn(ind, 3)|) + FridayTerm(|SlotsOn(ind, 4)|)
  }

  /** The earliest slot of a non-empty list. */
  function Earliest(s: seq<int>): (r: int)
    requires s != []
    ensures r in s && forall i :: 0 <= i < |s| ==> r <= s[i]
  {
    if |s| == 1 then s[0]
    else
      var m := Earliest(s[1..]);
      assert forall i :: 1 <= i < |s| ==> s[i] == s[1..][i - 1];
      if s[0] <= m then s[0] else m
  }

  /** A day with lessons: a bonus when its first lesson is at 18:50, a
      charge otherwise. */
  function StartTerm(s: seq<int>): int
  {
    if s == [] then 0 else if Earliest(s) == 0 then -100 else 150
  }

  predicate Ascending(s: seq<int>)
  {
    forall i, j :: 0 <= i < j < |s| ==> s[i] <= s[j]
  }

  function Insert(x: int, s: seq<int>): (r: seq<int>)
    requires Ascending(s)
    ensures Ascending(r) && multiset(r) == multiset(s) + multiset{x}
    ensures |r| == |s| + 1 && (r[0] == x || (s != [] && r[0] == s[0]))
  {
    if s == [] || x <= s[0] then [x] + s
    else
      var rest := Insert(x, s[1..]);
      assert s == [s[0]] + s[1..];
      assert rest[0] >= s[0];
      [s[0]] + rest
  }

  /** The slots of a day in order, as `sorted` on the slot position lays
      out the day's lessons. */
  function Sorted(s: seq<int>): (r: seq<int>)
    ensures Ascending(r) && multiset(r) == multiset(s)
  {
    if s == [] then []
    else
      var r := Insert(s[0], Sorted(s[1..]));
      assert s == [s[0]] + s[1..];
      r
  }

  /** Consecutive lessons of a sorted day more than one slot apart. */
  function Holes(s: seq<int>): nat
  {
    if |s| < 2 then 0 else (if s[1] - s[0] > 1 then 1 else 0) + Holes(s[1..])
  }

  /** 300 per gap between the lessons of a day with more than one. */
  function GapTerm(s: seq<int>): int
  {
    if |s| > 1 then 300 * Holes(Sorted(s)) else 0
  }

  function DayTerms(s: seq<int>): int
  {
    StartTerm(s) + GapTerm(s)
  }

  function StartAndGapTerms(ind: seq<Booking>): int
  {
    DayTerms(SlotsOn(ind, 0)) + DayTerms(SlotsOn(ind, 1)) + DayTerms(SlotsOn(ind, 2))
    + DayTerms(SlotsOn(ind, 3)) + DayTerms(SlotsOn(ind, 4))
  }

  /** The genes of subject `code`. */
  function OfSubject(ind: seq<Booking>, code: string): (r: seq<Booking>)
    ensures |r| <= |ind|
  {
    if ind == [] then []
    else (if ind[0].subject == code then [ind[0]] else []) + OfSubject(ind[1..], code)
  }

  /** `aulas_por_disciplina_dia[code].values()`: the number of lessons of
      the subject on each day it uses, Monday first. */
  function UsedFrom(ind: seq<Booking>, code: string, d: nat): seq<nat>
    requires d <= Week.NumDays
    decreases Week.NumDays - d
  {
    if d == Week.NumDays then []
    else
      var n := |SlotsOn(OfSubject(ind, code), d)|;
      (if n > 0 then [n] else []) + UsedFrom(ind, code, d + 1)
  }

  /** The splitting rule of a load met by the days a subject uses: for two
      lessons one day holding both, for three two days holding two and
      one, for four two days holding two each. */
  function RuleMet(load: int, used: seq<nat>): bool
  {
    if load == 2 then used == [2]
    else if load == 3 then used == [1, 2] || used == [2, 1]
    else if load == 4 then used == [2, 2]
    else true
  }

  /** A bonus for each subject of load 2, 3 or 4 whose rule is met and a
      charge for each one whose rule is not; other loads count nothing. */
  function RuleTerms(courses: seq<Course>, ind: seq<Booking>): int
  {
    if courses == [] then 0
    else
      var c := courses[0];
      var term := if 2 <= c.hours <= 4 then (if RuleMet(c.hours, UsedFrom(ind, c.code, 0)) then -50 else 400) else 0;
      term + RuleTerms(courses[1..], ind)
  }

  /** Everything `calcular_fitness` adds up before the floor. */
  function RawScore(t: Tables, ind: seq<Booking>): int
  {
    SlotShare(ind) + LoadTerms(ind) + StartAndGapTerms(ind) + RuleTerms(t.courses, ind) - LessonCredit * |ind|
  }

  /** `calcular_fitness`: 10000 for an empty individual, and otherwise the
      sum of its terms floored at 0. */
  function Score(t: Tables, ind: seq<Booking>): nat
  {
    if ind == [] then EmptyScore else Max(0, RawScore(t, ind))
  }

  // ---------------------------------------------------------------------
  // Properties of the score
  // ---------------------------------------------------------------------

  /** The cells from position `k` on, beyond the first gene in each, after
      one more gene in front. */
  lemma {:induction false} SharedFromCons(x: (int, int), cells: seq<(int, int)>, k: nat)
    requires k <= Week.NumCells
    ensures SharedFrom([x] + cells, k)
            == SharedFrom(cells, k) + (if x in cells && exists j :: k <= j < Week.NumCells && CellAt(j) == x then 1 else 0)
    decreases Week.NumCells - k
  {
    if k < Week.NumCells {
      SharedFromCons(x, cells, k + 1);
      assert ([x] + cells)[1..] == cells;
      assert Count([x] + cells, CellAt(k)) == (if x == CellAt(k) then 1 else 0) + Count(cells, CellAt(k));
      if x == CellAt(k) {
        CellAtOnce(k);
      }
    }
  }

  /** Different positions hold different cells. */
  lemma {:induction false} CellAtOnce(k: nat)
    requires k < Week.NumCells
    ensures forall j :: k < j < Week.NumCells ==> CellAt(j) != CellAt(k)
  {
    forall j | k < j < Week.NumCells ensures CellAt(j) != CellAt(k) {
      assert j == Week.DayOf(j) * 4 + Week.SlotOf(j) && k == Week.DayOf(k) * 4 + Week.SlotOf(k);
    }
  }

  /** Every cell of a gene has a position. */
  lemma {:induction false} CellHasPosition(ind: seq<Booking>, i: int)
    requires 0 <= i < |ind|
    ensures CellAt(Week.Pos(ind[i].day, ind[i].slot)) == Cells(ind)[i]
  {
  }

  /** The genes beyond the first in each cell are the surplus of genes over
      occupied cells. */
  lemma {:induction false} SharedIsSurplus(ind: seq<Booking>)
    ensures SharedFrom(Cells(ind), 0) == |ind| - |Distinct(Cells(ind))|
  {
    if ind != [] {
      var cells, rest := Cells(ind), Cells(ind[1..]);
      var x := cells[0];
      assert cells == [x] + rest;
      SharedIsSurplus(ind[1..]);
      SharedFromCons(x, rest, 0);
      CellHasPosition(ind, 0);
      assert exists j :: 0 <= j < Week.NumCells && CellAt(j) == x by {
        var j := Week.Pos(ind[0].day, ind[0].slot);
        assert CellAt(j) == x;
      }
      DistinctCons(x, rest);
    } else {
      SharedFromEmpty(0);
      assert Distinct(Cells(ind)) == {};
    }
  }

  lemma {:induction false} SharedFromEmpty(k: nat)
    requires k <= Week.NumCells
    ensures SharedFrom([], k) == 0
    decreases Week.NumCells - k
  {
    if k < Week.NumCells {
      SharedFromEmpty(k + 1);
    }
  }

  lemma {:induction false} DistinctCons<K>(x: K, s: seq<K>)
    ensures |Distinct([x] + s)| == |Distinct(s)| + (if x in s then 0 else 1)
  {
    assert Distinct([x] + s) == {x} + Distinct(s);
    if x !in s {
      assert x !in Distinct(s);
    }
  }

  /** The shared-slot term is 2000 for every lesson beyond the first in its
      cell, and 0 exactly when no two lessons share a day and a slot. */
  lemma {:induction false} SlotShareCounts(ind: seq<Booking>)
    ensures SlotShare(ind) == SharedSlotCost * (|ind| - |Distinct(Cells(ind))|)
    ensures SlotShare(ind) == 0 <==> NoClash(ind)
  {
    SharedIsSurplus(ind);
    var cells := Cells(ind);
    RepeatsIsSurplus(cells);
    assert forall i :: 0 <= i < |ind| ==> cells[i] == (ind[i].day as int, ind[i].slot as int);
    if NoClash(ind) {
      assert NoDuplicates(Cells(ind));
      DedupLength(Cells(ind));
    } else {
      assert !NoDuplicates(Cells(ind));
      DuplicatesShrink(Cells(ind));
    }
  }

  /** A day that is empty or holds one block from 18:50 has no gap and, if
      it has lessons, earns the 18:50 bonus. */
  lemma {:induction false} BlockDayTerms(s: seq<int>)
    requires s == [] || s == [0] || s == [0, 1]
    ensures GapTerm(s) == 0
    ensures StartTerm(s) == if s == [] then 0 else -100
  {
    if s == [0, 1] {
      assert Sorted([]) == [];
      assert [1][1..] == [] && Sorted([1]) == Insert(1, []) == [1];
      assert s[1..] == [1] && Sorted(s) == Insert(0, Sorted([1]));
      assert Insert(0, [1]) == [0, 1];
      assert Holes([1]) == 0;
      assert [0, 1][1..] == [1] && Holes([0, 1]) == Holes([1]);
    } else if s == [0] {
      assert Earliest(s) == 0;
    }
  }
}
