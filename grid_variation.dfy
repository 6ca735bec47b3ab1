/** The variation operators of the grid optimiser: tournament selection
    (`selecao_torneio`), day-row crossover followed by repair
    (`crossover_agenda`) and cell-swap mutation (`mutacao_agenda`). Every
    draw of the source's `random` module is a parameter: the sampled
    population indices, the crossover coin and the sampled days, and for
    each mutation attempt its coin and its two cells. */
module GridVariation {
  import opened Wrappers
  import opened Counting
  import opened Records
  import opened GridGenome
  import opened GridRepair
  import Ranking
  import Week

  const TournamentSize: nat := 3
  const CrossoverRate: real := 0.8
  const MutationRate: real := 0.15

  /** `max(1, int(0.15 * 5 * 4))`: the product is exactly 3.0 in binary
      floating point, so every mutation makes three attempts. */
  const MutationAttempts: nat := 3

  // ---------------------------------------------------------------------
  // Tournament selection
  // ---------------------------------------------------------------------

  /** `copy.deepcopy` of an agenda. */
  method CopyGrid(a: array2<Cell>) returns (b: array2<Cell>)
    requires IsWeek(a)
    ensures fresh(b) && IsWeek(b) && Cells(b) == Cells(a)
  {
    b := new Cell[Week.NumDays, Week.NumSlots]((d, h) reads a => if 0 <= d < a.Length0 && 0 <= h < a.Length1 then a[d, h] else None);
  }

  /** `selecao_torneio`: a copy of the sampled individual with the best
      fitness. */
  method Tournament(pop: seq<array2<Cell>>, scores: seq<real>, sample: seq<nat>) returns (a: array2<Cell>)
    requires |scores| == |pop| && Ranking.IsSample(sample, |pop|, TournamentSize)
    requires forall i :: 0 <= i < |pop| ==> IsWeek(pop[i])
    ensures fresh(a) && IsWeek(a)
    ensures Cells(a) == Cells(pop[Ranking.Winner(scores, sample)])
  {
    var w := Ranking.Winner(scores, sample);
    a := CopyGrid(pop[w]);
  }

  // ---------------------------------------------------------------------
  // Crossover
  // ---------------------------------------------------------------------

  /** The two grids with day `d`'s rows exchanged. */
  function SwapRow(g1: seq<Cell>, g2: seq<Cell>, d: nat): (r: (seq<Cell>, seq<Cell>))
    requires IsGrid(g1) && IsGrid(g2)
    ensures IsGrid(r.0) && IsGrid(r.1)
  {
    (seq(Week.NumCells, k requires 0 <= k < Week.NumCells => if k / 4 == d then g2[k] else g1[k]),
     seq(Week.NumCells, k requires 0 <= k < Week.NumCells => if k / 4 == d then g1[k] else g2[k]))
  }

  /** The loop over `dias_trocar`, one row exchange per listed day. */
  function SwapDays(g1: seq<Cell>, g2: seq<Cell>, days: seq<nat>): (r: (seq<Cell>, seq<Cell>))
    requires IsGrid(g1) && IsGrid(g2)
    ensures IsGrid(r.0) && IsGrid(r.1)
  {
    if days == [] then (g1, g2)
    else
      var prev := SwapDays(g1, g2, days[..|days| - 1]);
      SwapRow(prev.0, prev.1, days[|days| - 1])
  }

  /** With distinct days, a child's row is the other parent's for every
      chosen day and its own parent's for every other day. */
  lemma {:induction false} SwapDaysRows(g1: seq<Cell>, g2: seq<Cell>, days: seq<nat>)
    requires IsGrid(g1) && IsGrid(g2) && NoDuplicates(days)
    ensures forall k :: 0 <= k < Week.NumCells ==>
              SwapDays(g1, g2, days).0[k] == (if k / 4 in days then g2[k] else g1[k])
              && SwapDays(g1, g2, days).1[k] == (if k / 4 in days then g1[k] else g2[k])
  {
    if days != [] {
      var init := days[..|days| - 1];
      var d := days[|days| - 1];
      SwapDaysRows(g1, g2, init);
      assert d !in init;
      assert forall x :: x in days <==> x in init || x == d by {
        assert days == init + [d];
      }
    }
  }

  /** Exchanges day `d`'s rows of two distinct agendas in place. */
  method SwapRowInPlace(a: array2<Cell>, b: array2<Cell>, d: nat)
    requires IsWeek(a) && IsWeek(b) && a != b && Week.IsDay(d)
    modifies a, b
    ensures (Cells(a), Cells(b)) == SwapRow(old(Cells(a)), old(Cells(b)), d)
  {
    ghost var g1, g2 := Cells(a), Cells(b);
    var h := 0;
    while h < Week.NumSlots
      invariant 0 <= h <= Week.NumSlots
      invariant forall k :: 0 <= k < Week.NumCells ==>
                  Cells(a)[k] == (if k / 4 == d && k % 4 < h then g2[k] else g1[k])
                  && Cells(b)[k] == (if k / 4 == d && k % 4 < h then g1[k] else g2[k])
    {
      var temp := a[d, h];
      a[d, h] := b[d, h];
      b[d, h] := temp;
      forall k | 0 <= k < Week.NumCells
        ensures Cells(a)[k] == (if k / 4 == d && k % 4 < h + 1 then g2[k] else g1[k])
      {
        assert k == 4 * (k / 4) + k % 4;
      }
      forall k | 0 <= k < Week.NumCells
        ensures Cells(b)[k] == (if k / 4 == d && k % 4 < h + 1 then g1[k] else g2[k])
      {
        assert k == 4 * (k / 4) + k % 4;
      }
      h := h + 1;
    }
    assert Cells(a) == SwapRow(g1, g2, d).0;
    assert Cells(b) == SwapRow(g1, g2, d).1;
  }

  /** What `crossover_agenda` returns: the parents when the coin exceeds
      the crossover rate; otherwise the chosen days' rows exchanged and both
      children repaired. Demand could only have been built with a room (or
      nothing to place), so repair never raises here. */
  function Crossed(cat: Catalog, g1: seq<Cell>, g2: seq<Cell>, coin: real, days: seq<nat>): (r: (seq<Cell>, seq<Cell>))
    requires IsGrid(g1) && IsGrid(g2) && HasRoomFor(cat)
    ensures IsGrid(r.0) && IsGrid(r.1)
  {
    if coin > CrossoverRate then (g1, g2)
    else
      var swapped := SwapDays(g1, g2, days);
      RepairSucceeds(cat, swapped.0, |cat.subjects|);
      RepairSucceeds(cat, swapped.1, |cat.subjects|);
      (Repaired(cat, swapped.0).value, Repaired(cat, swapped.1).value)
  }

  /** A crossed child keeps every lesson of its row-exchanged grid, and
      every subject it lacked there reaches its load or fills the grid. */
  lemma {:induction false} CrossedServes(cat: Catalog, g1: seq<Cell>, g2: seq<Cell>, coin: real, days: seq<nat>)
    requires IsGrid(g1) && IsGrid(g2) && HasRoomFor(cat) && coin <= CrossoverRate
    ensures var swapped := SwapDays(g1, g2, days);
            var r := Crossed(cat, g1, g2, coin, days);
            Keeps(swapped.0, r.0) && Keeps(swapped.1, r.1)
            && forall i :: 0 <= i < |cat.subjects| ==> Served(r.0, cat.subjects[i]) && Served(r.1, cat.subjects[i])
  {
    var swapped := SwapDays(g1, g2, days);
    RepairSucceeds(cat, swapped.0, |cat.subjects|);
    RepairSucceeds(cat, swapped.1, |cat.subjects|);
    RepairKeeps(cat, swapped.0, |cat.subjects|);
    RepairKeeps(cat, swapped.1, |cat.subjects|);
    RepairServes(cat, swapped.0, |cat.subjects|);
    RepairServes(cat, swapped.1, |cat.subjects|);
  }

  /** `crossover_agenda` on agendas: fresh children holding `Crossed`. */
  method Crossover(cat: Catalog, p1: array2<Cell>, p2: array2<Cell>, coin: real, days: seq<nat>)
    returns (f1: array2<Cell>, f2: array2<Cell>)
    requires IsWeek(p1) && IsWeek(p2) && HasRoomFor(cat)
    requires coin <= CrossoverRate ==> 1 <= |days| <= 3 && Ranking.IsSample(days, Week.NumDays, |days|)
    ensures fresh(f1) && fresh(f2) && IsWeek(f1) && IsWeek(f2)
    ensures (Cells(f1), Cells(f2)) == Crossed(cat, Cells(p1), Cells(p2), coin, days)
  {
    f1 := CopyGrid(p1);
    f2 := CopyGrid(p2);
    if coin > CrossoverRate {
      return;
    }
    ghost var g1, g2 := Cells(p1), Cells(p2);
    var i := 0;
    while i < |days|
      invariant 0 <= i <= |days|
      invariant (Cells(f1), Cells(f2)) == SwapDays(g1, g2, days[..i])
    {
      assert days[..i + 1][..i] == days[..i];
      SwapRowInPlace(f1, f2, days[i]);
      i := i + 1;
    }
    assert days[..i] == days;
    RepairSucceeds(cat, Cells(f1), |cat.subjects|);
    RepairSucceeds(cat, Cells(f2), |cat.subjects|);
    var ok1 := Repair(cat, f1);
    var ok2 := Repair(cat, f2);
  }

  // ---------------------------------------------------------------------
  // Mutation
  // ---------------------------------------------------------------------

  /** One mutation attempt: its coin and the two cells it would exchange. */
  datatype Attempt = Attempt(coin: real, p: nat, q: nat)

  predicate ValidAttempts(attempts: seq<Attempt>)
  {
    |attempts| == MutationAttempts
    && forall i :: 0 <= i < |attempts| ==> attempts[i].p < Week.NumCells && attempts[i].q < Week.NumCells
  }

  function SwapCells<T>(s: seq<T>, p: nat, q: nat): seq<T>
    requires p < |s| && q < |s|
  {
    s[p := s[q]][q := s[p]]
  }

  /** The grid after the attempts, each swapping its cells when its coin
      is below the mutation rate. */
  function ApplyAttempts(g: seq<Cell>, attempts: seq<Attempt>): (r: seq<Cell>)
    requires forall i :: 0 <= i < |attempts| ==> attempts[i].p < |g| && attempts[i].q < |g|
    ensures |r| == |g|
  {
    if attempts == [] then g
    else
      var prev := ApplyAttempts(g, attempts[..|attempts| - 1]);
      var t := attempts[|attempts| - 1];
      if t.coin < MutationRate then SwapCells(prev, t.p, t.q) else prev
  }

  lemma {:induction false} SwapCellsMultiset<T>(s: seq<T>, p: nat, q: nat)
    requires p < |s| && q < |s|
    ensures multiset(SwapCells(s, p, q)) == multiset(s)
  {
    var t := s[p := s[q]];
    assert multiset(t) == multiset(s) - multiset{s[p]} + multiset{s[q]};
    assert multiset(t[q := s[p]]) == multiset(t) - multiset{t[q]} + multiset{s[p]};
  }

  lemma {:induction false} SwapCellsTags(g: seq<Cell>, p: nat, q: nat)
    requires p < |g| && q < |g|
    ensures Tags(SwapCells(g, p, q)) == SwapCells(Tags(g), p, q)
  {
  }

  /** Mutation only exchanges cells, so it keeps the multiset of cell
      contents, hence every subject's count and the empty-cell count. */
  lemma {:induction false} ApplyAttemptsMultiset(g: seq<Cell>, attempts: seq<Attempt>)
    requires forall i :: 0 <= i < |attempts| ==> attempts[i].p < |g| && attempts[i].q < |g|
    ensures multiset(ApplyAttempts(g, attempts)) == multiset(g)
    ensures multiset(Tags(ApplyAttempts(g, attempts))) == multiset(Tags(g))
  {
    if attempts != [] {
      var prev := ApplyAttempts(g, attempts[..|attempts| - 1]);
      var t := attempts[|attempts| - 1];
      ApplyAttemptsMultiset(g, attempts[..|attempts| - 1]);
      if t.coin < MutationRate {
        SwapCellsMultiset(prev, t.p, t.q);
        SwapCellsTags(prev, t.p, t.q);
        SwapCellsMultiset(Tags(prev), t.p, t.q);
      }
    }
  }

  lemma {:induction false} MutationKeepsCounts(g: seq<Cell>, attempts: seq<Attempt>, code: string)
    requires forall i :: 0 <= i < |attempts| ==> attempts[i].p < |g| && attempts[i].q < |g|
    ensures SubjectCount(ApplyAttempts(g, attempts), code) == SubjectCount(g, code)
    ensures Occupied(ApplyAttempts(g, attempts)) == Occupied(g)
    ensures Placed(ApplyAttempts(g, attempts)) == Placed(g)
  {
    var r := ApplyAttempts(g, attempts);
    ApplyAttemptsMultiset(g, attempts);
    CountMultiset(Tags(r), Some(code));
    CountMultiset(Tags(g), Some(code));
    forall c: Cell ensures Count(r, c) == Count(g, c) {
      CountMultiset(r, c);
      CountMultiset(g, c);
    }
    PlacedOfSameCounts(r, g);
  }

  /** `mutacao_agenda`: a copy of the agenda with the attempts applied; the
      input agenda is left untouched. */
  method Mutate(a: array2<Cell>, attempts: seq<Attempt>) returns (b: array2<Cell>)
    requires IsWeek(a) && ValidAttempts(attempts)
    ensures fresh(b) && IsWeek(b)
    ensures Cells(b) == ApplyAttempts(Cells(a), attempts)
  {
    b := CopyGrid(a);
    ghost var g := Cells(a);
    var i := 0;
    while i < MutationAttempts
      invariant 0 <= i <= MutationAttempts && Cells(b) == ApplyAttempts(g, attempts[..i])
    {
      assert attempts[..i + 1][..i] == attempts[..i];
      var t := attempts[i];
      if t.coin < MutationRate {
        var temp := b[t.p / 4, t.p % 4];
        SetCell(b, t.p, b[t.q / 4, t.q % 4]);
        SetCell(b, t.q, temp);
      }
      i := i + 1;
    }
    assert attempts[..i] == attempts;
  }
}
