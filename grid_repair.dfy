/** The repair pass of the grid optimiser (`_reparar_cromossomo`): counts
    each subject's cells once, then walks the subjects in dictionary order
    and writes the missing lessons of every short subject into the empty
    cells that are left, in row-major order. */
module GridRepair {
  import opened Wrappers
  import opened Counting
  import opened Records
  import opened GridGenome
  import Week

  // ---------------------------------------------------------------------
  // Empty cells and filling
  // ---------------------------------------------------------------------

  /** The empty positions below `n`, ascending (the source's
      `slots_vazios` comprehension visits d, then h). */
  function EmptiesTo(g: seq<Cell>, n: nat): (ps: seq<nat>)
    requires n <= |g|
    ensures forall j :: 0 <= j < |ps| ==> ps[j] < n && g[ps[j]].None?
  {
    if n == 0 then []
    else EmptiesTo(g, n - 1) + (if g[n - 1].None? then [n - 1] else [])
  }

  function Empties(g: seq<Cell>): seq<nat>
  {
    EmptiesTo(g, |g|)
  }

  lemma {:induction false} EmptiesToAscending(g: seq<Cell>, n: nat)
    requires n <= |g|
    ensures StrictlyAscending(EmptiesTo(g, n))
  {
    if n > 0 {
      EmptiesToAscending(g, n - 1);
      var ps := EmptiesTo(g, n - 1);
      if g[n - 1].None? {
        var qs := ps + [n - 1];
        forall i, j | 0 <= i < j < |qs| ensures qs[i] < qs[j] {
          assert qs[i] == ps[i];
        }
      } else {
        assert EmptiesTo(g, n) == ps;
      }
    }
  }

  lemma {:induction false} EmptiesToCount(g: seq<Cell>, n: nat)
    requires n <= |g|
    ensures |EmptiesTo(g, n)| == Count(g[..n], None)
  {
    if n > 0 {
      EmptiesToCount(g, n - 1);
      assert g[..n] == g[..n - 1] + [g[n - 1]];
      CountAppend(g[..n - 1], [g[n - 1]], None);
    }
  }

  lemma {:induction false} EmptiesToComplete(g: seq<Cell>, n: nat)
    requires n <= |g|
    ensures forall k :: 0 <= k < n && g[k].None? ==> k in EmptiesTo(g, n)
  {
    if n > 0 {
      EmptiesToComplete(g, n - 1);
    }
  }

  predicate StrictlyAscending(ps: seq<nat>)
  {
    forall i, j :: 0 <= i < j < |ps| ==> ps[i] < ps[j]
  }

  /** The empty cells, in row-major order: exactly the empty positions,
      one entry per empty cell. */
  lemma {:induction false} EmptiesAreEmptyCells(g: seq<Cell>)
    ensures StrictlyAscending(Empties(g)) && |Empties(g)| == Count(g, None)
    ensures forall k :: 0 <= k < |g| ==> (k in Empties(g) <==> g[k].None?)
  {
    EmptiesToAscending(g, |g|);
    EmptiesToCount(g, |g|);
    EmptiesToComplete(g, |g|);
    assert g[..|g|] == g;
  }

  /** The first `m` listed positions receive lesson `l`, in list order. */
  function Fill(g: seq<Cell>, ps: seq<nat>, m: nat, l: Lesson): (r: seq<Cell>)
    requires m <= |ps| && forall j :: 0 <= j < |ps| ==> ps[j] < |g|
    ensures |r| == |g|
  {
    if m == 0 then g else Fill(g, ps, m - 1, l)[ps[m - 1] := Some(l)]
  }

  /** Filling writes `l` exactly at the first `m` listed positions. */
  lemma {:induction false} FillCells(g: seq<Cell>, ps: seq<nat>, m: nat, l: Lesson)
    requires m <= |ps| && forall j :: 0 <= j < |ps| ==> ps[j] < |g|
    ensures forall k :: 0 <= k < |g| ==> Fill(g, ps, m, l)[k] == if k in ps[..m] then Some(l) else g[k]
  {
    if m > 0 {
      FillCells(g, ps, m - 1, l);
      assert ps[..m] == ps[..m - 1] + [ps[m - 1]];
    }
  }

  /** A position outside the first `m` listed ones keeps its cell. */
  lemma {:induction false} FillOutside(g: seq<Cell>, ps: seq<nat>, m: nat, l: Lesson, k: nat)
    requires m <= |ps| && forall j :: 0 <= j < |ps| ==> ps[j] < |g|
    requires k < |g| && forall j :: 0 <= j < m ==> ps[j] != k
    ensures Fill(g, ps, m, l)[k] == g[k]
  {
    if m > 0 {
      FillOutside(g, ps, m - 1, l, k);
    }
  }

  /** Filling the first `m` of a list of distinct empty cells adds `m`
      cells of the lesson's subject, no other, and removes `m` empty
      cells. */
  lemma {:induction false} FillCounts(g: seq<Cell>, ps: seq<nat>, m: nat, l: Lesson, code: string)
    requires m <= |ps| && StrictlyAscending(ps)
    requires forall j :: 0 <= j < |ps| ==> ps[j] < |g| && g[ps[j]].None?
    ensures SubjectCount(Fill(g, ps, m, l), code) == SubjectCount(g, code) + (if l.subject == code then m else 0)
    ensures Count(Fill(g, ps, m, l), None) == Count(g, None) - m
  {
    if m > 0 {
      FillCounts(g, ps, m - 1, l, code);
      var p := ps[m - 1];
      var prev := Fill(g, ps, m - 1, l);
      assert forall j :: 0 <= j < m - 1 ==> ps[j] != p;
      FillOutside(g, ps, m - 1, l, p);
      FillOneCount(prev, p, l, code);
    }
  }

  // ---------------------------------------------------------------------
  // The repair specification
  // ---------------------------------------------------------------------

  /** `aulas_atuais.get(code, 0)`, read from the grid the pass started on. */
  function Shortfall(g0: seq<Cell>, s: Subject): nat
  {
    var present := SubjectCount(g0, s.code);
    if present < s.hours then s.hours - present else 0
  }

  /** One subject's turn on the current grid `g`: `min(shortfall, empty
      cells)` lessons written to the first empty cells. `None` when a lesson
      is due and the room table is empty (the source's `[0]` raises). */
  function RepairStep(cat: Catalog, g0: seq<Cell>, g: seq<Cell>, s: Subject): Option<seq<Cell>>
  {
    var m := Min(Shortfall(g0, s), |Empties(g)|);
    if m == 0 then Some(g)
    else if |cat.rooms| == 0 then None
    else Some(Fill(g, Empties(g), m, LessonFor(cat.teachers, s, FirstRoom(cat))))
  }

  /** The grid after the first `n` subjects have had their turn. */
  function RepairUpTo(cat: Catalog, g0: seq<Cell>, n: nat): (r: Option<seq<Cell>>)
    requires n <= |cat.subjects|
    ensures r.Some? ==> |r.value| == |g0|
  {
    if n == 0 then Some(g0)
    else
      match RepairUpTo(cat, g0, n - 1)
      case None => None
      case Some(g) => RepairStep(cat, g0, g, cat.subjects[n - 1])
  }

  /** `_reparar_cromossomo`. */
  function Repaired(cat: Catalog, g0: seq<Cell>): Option<seq<Cell>>
  {
    RepairUpTo(cat, g0, |cat.subjects|)
  }

  /** Every filled cell of `g0` is still there in `g`. */
  predicate Keeps(g0: seq<Cell>, g: seq<Cell>)
  {
    |g| == |g0| && forall k :: 0 <= k < |g0| && g0[k].Some? ==> g[k] == g0[k]
  }

  lemma {:induction false} CountDominates<T>(a: seq<T>, b: seq<T>, x: T)
    requires |a| == |b| && forall k :: 0 <= k < |a| && a[k] == x ==> b[k] == x
    ensures Count(a, x) <= Count(b, x)
  {
    if a != [] {
      CountDominates(a[1..], b[1..], x);
    }
  }

  /** Keeping every filled cell keeps every subject's count. */
  lemma {:induction false} KeepsCounts(g0: seq<Cell>, g: seq<Cell>, code: string)
    requires Keeps(g0, g)
    ensures SubjectCount(g, code) >= SubjectCount(g0, code)
    ensures Count(g, None) <= Count(g0, None)
  {
    CountDominates(Tags(g0), Tags(g), Some(code));
    forall k | 0 <= k < |g| && g[k] == None ensures g0[k] == None {
    }
    CountDominates(g, g0, None);
  }

  lemma {:induction false} StepKeeps(cat: Catalog, g0: seq<Cell>, g: seq<Cell>, s: Subject)
    requires RepairStep(cat, g0, g, s).Some?
    ensures Keeps(g, RepairStep(cat, g0, g, s).value)
  {
    var m := Min(Shortfall(g0, s), |Empties(g)|);
    if m > 0 {
      FillCells(g, Empties(g), m, LessonFor(cat.teachers, s, FirstRoom(cat)));
      EmptiesAreEmptyCells(g);
      forall k | 0 <= k < |g| && g[k].Some? ensures k !in Empties(g)[..m] {
        assert k !in Empties(g);
      }
    }
  }

  /** Repair never removes or overwrites a filled cell. */
  lemma {:induction false} RepairKeeps(cat: Catalog, g0: seq<Cell>, n: nat)
    requires n <= |cat.subjects| && RepairUpTo(cat, g0, n).Some?
    ensures Keeps(g0, RepairUpTo(cat, g0, n).value)
  {
    if n > 0 {
      RepairKeeps(cat, g0, n - 1);
      var g := RepairUpTo(cat, g0, n - 1).value;
      StepKeeps(cat, g0, g, cat.subjects[n - 1]);
    }
  }

  /** Subject `s` is served: it has its load, or no empty cell is left. */
  predicate Served(g: seq<Cell>, s: Subject)
  {
    SubjectCount(g, s.code) >= s.hours || Count(g, None) == 0
  }

  lemma {:induction false} StepServes(cat: Catalog, g0: seq<Cell>, g: seq<Cell>, s: Subject)
    requires Keeps(g0, g) && RepairStep(cat, g0, g, s).Some?
    ensures Served(RepairStep(cat, g0, g, s).value, s)
  {
    var m := Min(Shortfall(g0, s), |Empties(g)|);
    var l := LessonFor(cat.teachers, s, FirstRoom(cat));
    KeepsCounts(g0, g, s.code);
    EmptiesAreEmptyCells(g);
    if m > 0 {
      EmptiesToAscending(g, |g|);
      FillCounts(g, Empties(g), m, l, s.code);
    }
  }

  lemma {:induction false} StepPreservesServed(cat: Catalog, g0: seq<Cell>, g: seq<Cell>, s: Subject, t: Subject)
    requires Served(g, t) && RepairStep(cat, g0, g, s).Some?
    ensures Served(RepairStep(cat, g0, g, s).value, t)
  {
    StepKeeps(cat, g0, g, s);
    KeepsCounts(g, RepairStep(cat, g0, g, s).value, t.code);
  }

  /** After the pass every subject is served: each either has at least
      its load, or the week is full. */
  lemma {:induction false} RepairServes(cat: Catalog, g0: seq<Cell>, n: nat)
    requires n <= |cat.subjects| && RepairUpTo(cat, g0, n).Some?
    ensures forall i :: 0 <= i < n ==> Served(RepairUpTo(cat, g0, n).value, cat.subjects[i])
  {
    if n > 0 {
      RepairServes(cat, g0, n - 1);
      RepairKeeps(cat, g0, n - 1);
      var g := RepairUpTo(cat, g0, n - 1).value;
      var s := cat.subjects[n - 1];
      StepServes(cat, g0, g, s);
      forall i | 0 <= i < n - 1 ensures Served(RepairStep(cat, g0, g, s).value, cat.subjects[i]) {
        StepPreservesServed(cat, g0, g, s, cat.subjects[i]);
      }
    }
  }

  /** Repair only writes lessons, so it fails only when a lesson is due and
      there is no room to give it: with a room (or nothing due) it always
      succeeds. */
  lemma {:induction false} RepairSucceeds(cat: Catalog, g0: seq<Cell>, n: nat)
    requires n <= |cat.subjects| && HasRoomFor(cat)
    ensures RepairUpTo(cat, g0, n).Some?
  {
    if n > 0 {
      RepairSucceeds(cat, g0, n - 1);
      var s := cat.subjects[n - 1];
      if Shortfall(g0, s) > 0 {
        assert s.hours > 0;
      }
    }
  }

  /** A served subject's turn on the grid the pass started on writes
      nothing. */
  lemma {:induction false} StepServedIsIdentity(cat: Catalog, g: seq<Cell>, s: Subject)
    requires Served(g, s)
    ensures RepairStep(cat, g, g, s) == Some(g)
  {
    EmptiesAreEmptyCells(g);
    assert Min(Shortfall(g, s), |Empties(g)|) == 0;
  }

  /** A grid on which every subject is served is left as it is. */
  lemma {:induction false} RepairServedIsIdentity(cat: Catalog, g: seq<Cell>, n: nat)
    requires n <= |cat.subjects|
    requires forall i :: 0 <= i < |cat.subjects| ==> Served(g, cat.subjects[i])
    ensures RepairUpTo(cat, g, n) == Some(g)
  {
    if n > 0 {
      RepairServedIsIdentity(cat, g, n - 1);
      var s := cat.subjects[n - 1];
      StepServedIsIdentity(cat, g, s);
      assert RepairUpTo(cat, g, n) == RepairStep(cat, g, g, s);
    }
  }

  /** Repairing twice equals repairing once. */
  lemma {:induction false} RepairIdempotent(cat: Catalog, g0: seq<Cell>)
    requires Repaired(cat, g0).Some?
    ensures Repaired(cat, Repaired(cat, g0).value) == Repaired(cat, g0)
  {
    RepairServes(cat, g0, |cat.subjects|);
    RepairServedIsIdentity(cat, Repaired(cat, g0).value, |cat.subjects|);
  }

  // ---------------------------------------------------------------------
  // The in-place pass
  // ---------------------------------------------------------------------

  /** `dict.get(code, 0)`. */
  function Get(counts: map<string, nat>, code: string): nat
  {
    if code in counts then counts[code] else 0
  }

  /** The counting loop: `aulas_atuais` over the whole agenda. */
  method CountSubjects(a: array2<Cell>) returns (counts: map<string, nat>)
    requires IsWeek(a)
    ensures forall code :: Get(counts, code) == SubjectCount(Cells(a), code)
  {
    ghost var tags := Tags(Cells(a));
    counts := map[];
    var k := 0;
    while k < Week.NumCells
      invariant 0 <= k <= Week.NumCells
      invariant forall code :: Get(counts, code) == Count(tags[..k], Some(code))
    {
      assert tags[..k + 1] == tags[..k] + [tags[k]];
      forall code ensures Count(tags[..k + 1], Some(code)) == Count(tags[..k], Some(code)) + (if tags[k] == Some(code) then 1 else 0) {
        CountAppend(tags[..k], [tags[k]], Some(code));
      }
      var c := a[k / 4, k % 4];
      if c.Some? {
        counts := counts[c.value.subject := Get(counts, c.value.subject) + 1];
      }
      k := k + 1;
    }
    assert tags[..k] == tags;
  }

  /** The `slots_vazios` comprehension. */
  method EmptySlots(a: array2<Cell>) returns (ps: seq<nat>)
    requires IsWeek(a)
    ensures ps == Empties(Cells(a))
  {
    ps := [];
    var k := 0;
    while k < Week.NumCells
      invariant 0 <= k <= Week.NumCells
      invariant ps == EmptiesTo(Cells(a), k)
    {
      if a[k / 4, k % 4].None? {
        ps := ps + [k];
      }
      k := k + 1;
    }
  }

  /** One subject's turn, in place. */
  method RepairSubject(cat: Catalog, ghost g0: seq<Cell>, counts: map<string, nat>, a: array2<Cell>, s: Subject) returns (ok: bool)
    requires IsWeek(a) && Get(counts, s.code) == SubjectCount(g0, s.code)
    modifies a
    ensures ok == RepairStep(cat, g0, old(Cells(a)), s).Some?
    ensures ok ==> Cells(a) == RepairStep(cat, g0, old(Cells(a)), s).value
    ensures !ok ==> Cells(a) == old(Cells(a))
  {
    var present := Get(counts, s.code);
    ok := true;
    if present < s.hours {
      var missing := s.hours - present;
      var teacher := FirstTeacher(cat.teachers, s.code);
      var empties := EmptySlots(a);
      ghost var g := Cells(a);
      var m := Min(missing, |empties|);
      var i := 0;
      while i < m
        invariant 0 <= i <= m && Cells(a) == Fill(g, empties, i, LessonFor(cat.teachers, s, FirstRoom(cat)))
        invariant |cat.rooms| == 0 ==> i == 0
      {
        if |cat.rooms| == 0 {
          ok := false;
          return;
        }
        SetCell(a, empties[i], Some(Lesson(s.code, teacher, cat.rooms[0].code)));
        i := i + 1;
      }
    }
  }

  /** Once a subject's turn raises, the whole pass has raised. */
  lemma {:induction false} RepairFailureStays(cat: Catalog, g0: seq<Cell>, n: nat, m: nat)
    requires n <= m <= |cat.subjects| && RepairUpTo(cat, g0, n).None?
    ensures RepairUpTo(cat, g0, m).None?
    decreases m - n
  {
    if n < m {
      RepairFailureStays(cat, g0, n + 1, m);
    }
  }

  /** `_reparar_cromossomo` on the agenda, in place. `ok` is false where
      the source raises for want of a room. */
  method Repair(cat: Catalog, a: array2<Cell>) returns (ok: bool)
    requires IsWeek(a)
    modifies a
    ensures ok == Repaired(cat, old(Cells(a))).Some?
    ensures ok ==> Cells(a) == Repaired(cat, old(Cells(a))).value
  {
    ghost var g0 := Cells(a);
    var counts := CountSubjects(a);
    var i := 0;
    while i < |cat.subjects|
      invariant 0 <= i <= |cat.subjects| && RepairUpTo(cat, g0, i) == Some(Cells(a))
    {
      ok := RepairSubject(cat, g0, counts, a, cat.subjects[i]);
      if !ok {
        RepairFailureStays(cat, g0, i + 1, |cat.subjects|);
        return;
      }
      i := i + 1;
    }
    ok := true;
  }
}
