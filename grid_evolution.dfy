/** The generational loop of the grid optimiser (`executar` together with
    `inicializar_populacao`). The population is a list of agendas; each
    generation scores them, records the best, stops on convergence, and
    otherwise keeps the elites and breeds the rest by tournament, crossover
    and mutation. Every random draw is a parameter: one shuffle of the
    lesson list and one of the cell list per initial individual, and for
    each generation one `PairDraw` per bred pair. */
module GridEvolution {
  import opened Wrappers
  import opened Counting
  import opened Records
  import opened GridGenome
  import opened GridBuild
  import opened GridVariation
  import Ranking
  import Week

  /** Convergence is only checked once the generation index exceeds this. */
  const WarmUp: nat := 100

  /** Convergence: the last this-many generation bests are all equal. */
  const StallWindow: nat := 50

  // ---------------------------------------------------------------------
  // Draws
  // ---------------------------------------------------------------------

  /** One shuffle of the lesson list (as a permutation of its positions)
      and one of the twenty cells. */
  datatype Start = Start(perm: seq<nat>, cells: seq<nat>)

  predicate IsPermutation(p: seq<nat>, n: nat)
  {
    |p| == n && NoDuplicates(p) && forall i :: 0 <= i < |p| ==> p[i] < n
  }

  predicate ValidStart(s: Start, n: nat)
  {
    IsPermutation(s.perm, n) && IsCellOrder(s.cells)
  }

  /** The draws that breed one pair: two tournament samples, the crossover
      coin and days, and each child's mutation attempts. */
  datatype PairDraw = PairDraw(sample1: seq<nat>, sample2: seq<nat>, coin: real, days: seq<nat>,
                               attempts1: seq<Attempt>, attempts2: seq<Attempt>)

  predicate ValidDraw(d: PairDraw, n: nat)
  {
    Ranking.IsSample(d.sample1, n, TournamentSize) && Ranking.IsSample(d.sample2, n, TournamentSize)
    && (d.coin <= CrossoverRate ==> 1 <= |d.days| <= 3 && Ranking.IsSample(d.days, Week.NumDays, |d.days|))
    && ValidAttempts(d.attempts1) && ValidAttempts(d.attempts2)
  }

  /** `max(1, populacao_size // 10)`. */
  function EliteSize(n: nat): (e: nat)
    ensures 1 <= e && (n >= 1 ==> e <= n)
  {
    Max(1, n / 10)
  }

  /** The refill loop breeds pairs until elites and children reach `n`. */
  function PairsNeeded(n: nat): nat
  {
    if n <= EliteSize(n) then 0 else (n - EliteSize(n) + 1) / 2
  }

  /** The refill loop runs for exactly the pairs it needs. */
  lemma {:induction false} PairsNeededCovers(n: nat, k: nat)
    ensures k < PairsNeeded(n) <==> EliteSize(n) + 2 * k < n
  {
  }

  /** The pairs the refill loop breeds, with the elites, fill the population. */
  lemma {:induction false} PairsFill(n: nat)
    ensures EliteSize(n) + 2 * PairsNeeded(n) >= n
  {
  }

  predicate ValidDraws(draws: seq<seq<PairDraw>>, n: nat)
  {
    forall g :: 0 <= g < |draws| ==>
      |draws[g]| == PairsNeeded(n) && forall k :: 0 <= k < |draws[g]| ==> ValidDraw(draws[g][k], n)
  }

  // ---------------------------------------------------------------------
  // One generation, on values
  // ---------------------------------------------------------------------

  predicate AllGrids(pop: seq<seq<Cell>>)
  {
    forall i :: 0 <= i < |pop| ==> IsGrid(pop[i])
  }

  /** The lessons in shuffled order. */
  function Shuffled(lessons: seq<Lesson>, perm: seq<nat>): (r: seq<Lesson>)
    requires IsPermutation(perm, |lessons|)
    ensures |r| == |lessons|
  {
    seq(|perm|, i requires 0 <= i < |perm| => lessons[perm[i]])
  }

  /** `inicializar_populacao`: every start placed by `criar_cromossomo`
      with the source's own loop guard. */
  function InitialGrids(cat: Catalog, starts: seq<Start>): (r: seq<seq<Cell>>)
    requires forall i :: 0 <= i < |starts| ==> ValidStart(starts[i], |Demand(cat)|)
    ensures |r| == |starts| && AllGrids(r)
  {
    seq(|starts|, i requires 0 <= i < |starts| && ValidStart(starts[i], |Demand(cat)|) =>
      Chromosome(cat.availability, Shuffled(Demand(cat), starts[i].perm), starts[i].cells, true))
  }

  /** Each agenda of the initial population holds the first min(n, 10)
      shuffled lessons of its start and nothing else: the source's guard
      stops the placement at ten lessons. */
  lemma {:induction false} InitialGridsAsWritten(cat: Catalog, starts: seq<Start>)
    requires forall i :: 0 <= i < |starts| ==> ValidStart(starts[i], |Demand(cat)|)
    ensures var r := InitialGrids(cat, starts);
            forall i :: 0 <= i < |starts| ==>
              && Placed(r[i]) == multiset(Shuffled(Demand(cat), starts[i].perm)[..Min(|Demand(cat)|, 10)])
              && Occupied(r[i]) == Min(|Demand(cat)|, 10)
  {
    var r := InitialGrids(cat, starts);
    forall i | 0 <= i < |starts|
      ensures Placed(r[i]) == multiset(Shuffled(Demand(cat), starts[i].perm)[..Min(|Demand(cat)|, 10)])
      ensures Occupied(r[i]) == Min(|Demand(cat)|, 10)
    {
      var order := Shuffled(Demand(cat), starts[i].perm);
      ChromosomeAsWritten(cat.availability, order, starts[i].cells);
    }
  }

  /** The population indices kept by elitism, best first. */
  function Elites(scores: seq<real>): (r: seq<nat>)
    requires |scores| > 0
    ensures |r| == EliteSize(|scores|) && Ranking.ValidIndices(scores, r)
  {
    var ranked := Ranking.Rank(scores, Ranking.Range(|scores|), true);
    Ranking.RankValid(scores, Ranking.Range(|scores|), true);
    ranked[..EliteSize(|scores|)]
  }

  /** No individual outside the elites scores above an elite, and the first
      elite has the best score of the generation. */
  lemma {:induction false} ElitesAreTop(scores: seq<real>)
    requires |scores| > 0
    ensures var e := Elites(scores);
            (forall i, j :: 0 <= i < |e| && 0 <= j < |scores| && j !in e ==> scores[j] <= scores[e[i]])
            && forall j :: 0 <= j < |scores| ==> scores[j] <= scores[e[0]]
  {
    var n := |scores|;
    var e := Elites(scores);
    var ranked := Ranking.Rank(scores, Ranking.Range(n), true);
    Ranking.TopIsBest(scores, n, |e|, true);
    Ranking.TopIsBest(scores, n, 1, true);
    assert e == ranked[..|e|];
    forall i, j | 0 <= i < |e| && 0 <= j < n && j !in e
      ensures scores[j] <= scores[e[i]]
    {
      var m := RankedAt(scores, j);
      assert m >= |e|;
    }
    forall j | 0 <= j < n
      ensures scores[j] <= scores[e[0]]
    {
      var m := RankedAt(scores, j);
    }
  }

  /** Every index appears in the ranking. */
  lemma {:induction false} RankedAt(scores: seq<real>, j: nat) returns (m: nat)
    requires j < |scores|
    ensures var ranked := Ranking.Rank(scores, Ranking.Range(|scores|), true);
            m < |ranked| && ranked[m] == j
  {
    var ranked := Ranking.Rank(scores, Ranking.Range(|scores|), true);
    Ranking.RankPermutes(scores, Ranking.Range(|scores|), true);
    assert Ranking.Range(|scores|)[j] == j;
    assert j in multiset(ranked);
    m :| 0 <= m < |ranked| && ranked[m] == j;
  }

  function Offspring(cat: Catalog, pop: seq<seq<Cell>>, scores: seq<real>, d: PairDraw): (r: seq<seq<Cell>>)
    requires AllGrids(pop) && |scores| == |pop| && ValidDraw(d, |pop|) && HasRoomFor(cat)
    ensures |r| == 2 && AllGrids(r)
  {
    var p1 := pop[Ranking.Winner(scores, d.sample1)];
    var p2 := pop[Ranking.Winner(scores, d.sample2)];
    var c := Crossed(cat, p1, p2, d.coin, d.days);
    [ApplyAttempts(c.0, d.attempts1), ApplyAttempts(c.1, d.attempts2)]
  }

  /** One pass of the refill loop as a function of its draw. */
  function Breeder(cat: Catalog, pop: seq<seq<Cell>>, scores: seq<real>): PairDraw --> seq<seq<Cell>>
    requires AllGrids(pop) && |scores| == |pop| && HasRoomFor(cat)
  {
    d requires ValidDraw(d, |pop|) => Offspring(cat, pop, scores, d)
  }

  /** `f(ds[0]) + f(ds[1]) + ...`. */
  function Flatten<D, X>(f: D --> seq<X>, ds: seq<D>): seq<X>
    requires forall k :: 0 <= k < |ds| ==> f.requires(ds[k])
  {
    if ds == [] then [] else Flatten(f, ds[..|ds| - 1]) + f(ds[|ds| - 1])
  }

  /** Flattening pairs of agendas gives two agendas per draw: entries
      2k and 2k + 1 are the pair of draw k. */
  lemma {:induction false} FlattenPairs<D>(f: D --> seq<seq<Cell>>, ds: seq<D>)
    requires forall k :: 0 <= k < |ds| ==> f.requires(ds[k]) && |f(ds[k])| == 2 && AllGrids(f(ds[k]))
    ensures |Flatten(f, ds)| == 2 * |ds| && AllGrids(Flatten(f, ds))
    ensures forall k :: 0 <= k < |ds| ==> Flatten(f, ds)[2 * k] == f(ds[k])[0] && Flatten(f, ds)[2 * k + 1] == f(ds[k])[1]
  {
    if ds != [] {
      var n := |ds| - 1;
      assert forall k :: 0 <= k < n ==> ds[..n][k] == ds[k];
      FlattenPairs(f, ds[..n]);
      var r := Flatten(f, ds);
      assert r == Flatten(f, ds[..n]) + f(ds[n]);
      forall k | 0 <= k < |ds|
        ensures r[2 * k] == f(ds[k])[0] && r[2 * k + 1] == f(ds[k])[1]
      {
        if k < n {
          assert ds[..n][k] == ds[k];
        }
      }
    }
  }

  /** The children bred from the given pair draws, in order. */
  function Children(cat: Catalog, pop: seq<seq<Cell>>, scores: seq<real>, ds: seq<PairDraw>): (r: seq<seq<Cell>>)
    requires AllGrids(pop) && |scores| == |pop| && HasRoomFor(cat)
    requires forall k :: 0 <= k < |ds| ==> ValidDraw(ds[k], |pop|)
    ensures |r| == 2 * |ds| && AllGrids(r)
    ensures forall k :: 0 <= k < |ds| ==>
              r[2 * k] == Offspring(cat, pop, scores, ds[k])[0] && r[2 * k + 1] == Offspring(cat, pop, scores, ds[k])[1]
  {
    var f := Breeder(cat, pop, scores);
    assert forall k :: 0 <= k < |ds| ==> f.requires(ds[k]) && f(ds[k]) == Offspring(cat, pop, scores, ds[k]);
    FlattenPairs(f, ds);
    Flatten(f, ds)
  }

  /** `(a + b)[:n]`: all of `a`, then the first entries of `b`. */
  function Cut<X>(a: seq<X>, b: seq<X>, n: nat): (r: seq<X>)
    requires |a| <= n <= |a| + |b|
    ensures |r| == n && (forall i :: 0 <= i < |a| ==> r[i] == a[i]) && forall j :: |a| <= j < n ==> r[j] == b[j - |a|]
  {
    (a + b)[..n]
  }

  /** Cutting agendas gives agendas. */
  lemma {:induction false} CutGrids(a: seq<seq<Cell>>, b: seq<seq<Cell>>, n: nat)
    requires |a| <= n <= |a| + |b| && AllGrids(a) && AllGrids(b)
    ensures AllGrids(Cut(a, b, n))
  {
    var r := Cut(a, b, n);
    forall i | 0 <= i < n ensures IsGrid(r[i]) {
      if i >= |a| {
        assert r[i] == b[i - |a|];
      }
    }
  }

  function EliteGrids(pop: seq<seq<Cell>>, e: seq<nat>): (r: seq<seq<Cell>>)
    requires forall i :: 0 <= i < |e| ==> e[i] < |pop|
    ensures |r| == |e| && (AllGrids(pop) ==> AllGrids(r))
  {
    seq(|e|, i requires 0 <= i < |e| => pop[e[i]])
  }

  /** The next population: elites, then children, cut to the population
      size. */
  function NextGeneration(cat: Catalog, pop: seq<seq<Cell>>, scores: seq<real>, ds: seq<PairDraw>): (r: seq<seq<Cell>>)
    requires |pop| > 0 && AllGrids(pop) && |scores| == |pop| && HasRoomFor(cat)
    requires |ds| == PairsNeeded(|pop|) && forall k :: 0 <= k < |ds| ==> ValidDraw(ds[k], |pop|)
    ensures |r| == |pop| && AllGrids(r)
    ensures var e := Elites(scores); forall i :: 0 <= i < |e| ==> r[i] == pop[e[i]]
  {
    var e := Elites(scores);
    var elites := EliteGrids(pop, e);
    var kids := Children(cat, pop, scores, ds);
    PairsFill(|pop|);
    CutGrids(elites, kids, |pop|);
    Cut(elites, kids, |pop|)
  }

  /** After the elites, the next population holds the children in the
      order of their draws. */
  lemma {:induction false} NextGenerationChildren(cat: Catalog, pop: seq<seq<Cell>>, scores: seq<real>, ds: seq<PairDraw>)
    requires |pop| > 0 && AllGrids(pop) && |scores| == |pop| && HasRoomFor(cat)
    requires |ds| == PairsNeeded(|pop|) && forall k :: 0 <= k < |ds| ==> ValidDraw(ds[k], |pop|)
    ensures var e := Elites(scores);
            var c := Children(cat, pop, scores, ds);
            |e| + |c| >= |pop| && forall j :: |e| <= j < |pop| ==> NextGeneration(cat, pop, scores, ds)[j] == c[j - |e|]
  {
    PairsFill(|pop|);
  }

  /** Elitism carries the generation's first-ranked individual to the head
      of the next population. */
  lemma {:induction false} NextGenerationKeepsBest(cat: Catalog, score: seq<Cell> -> real, pop: seq<seq<Cell>>, ds: seq<PairDraw>)
    requires |pop| > 0 && AllGrids(pop) && HasRoomFor(cat)
    requires |ds| == PairsNeeded(|pop|) && forall k :: 0 <= k < |ds| ==> ValidDraw(ds[k], |pop|)
    ensures var scores := Ranking.Scores(score, pop);
            forall j :: 0 <= j < |pop| ==> scores[j] <= score(NextGeneration(cat, pop, scores, ds)[0])
  {
    var scores := Ranking.Scores(score, pop);
    ElitesAreTop(scores);
  }

  // ---------------------------------------------------------------------
  // The run, on values
  // ---------------------------------------------------------------------

  /** What `executar` returns: the best agenda so far (`None` until one
      beats the starting best of 0), its fitness, and every generation's
      best fitness. */
  datatype Outcome = Outcome(best: Option<seq<Cell>>, bestFitness: real, history: seq<real>)

  /** `len(set(historico_fitness[-50:])) == 1`. */
  predicate Stalled(h: seq<real>)
  {
    |h| > 0 && forall i :: Max(0, |h| - StallWindow) <= i < |h| ==> h[i] == h[|h| - 1]
  }

  predicate Stops(gen: nat, h: seq<real>)
  {
    gen > WarmUp && Stalled(h)
  }

  /** The stop test made at generation `g`, on the history it saw. */
  predicate StopsAt(h: seq<real>, g: nat)
    requires g < |h|
  {
    Stops(g, h[..g + 1])
  }

  /** A generation's bookkeeping: the first individual with the top score
      replaces the best only on a strict improvement; the top score is
      appended to the history. */
  function Record(st: Outcome, pop: seq<seq<Cell>>, scores: seq<real>): Outcome
    requires |scores| == |pop| > 0
  {
    var top := Ranking.BestIndex(scores, true);
    var improved := scores[top] > st.bestFitness;
    Outcome(if improved then Some(pop[top]) else st.best,
            if improved then scores[top] else st.bestFitness,
            st.history + [scores[top]])
  }

  /** What the run from generation `gen` needs of its population and draws. */
  predicate Runnable(cat: Catalog, pop: seq<seq<Cell>>, draws: seq<seq<PairDraw>>, gen: nat)
  {
    |pop| > 0 && AllGrids(pop) && HasRoomFor(cat) && ValidDraws(draws, |pop|) && gen <= |draws|
  }

  function EvolveFrom(cat: Catalog, score: seq<Cell> -> real, pop: seq<seq<Cell>>,
                      draws: seq<seq<PairDraw>>, gen: nat, st: Outcome): Outcome
    requires Runnable(cat, pop, draws, gen)
    decreases |draws| - gen
  {
    if gen == |draws| then st
    else
      var scores := Ranking.Scores(score, pop);
      var st' := Record(st, pop, scores);
      if Stops(gen, st'.history) then st'
      else EvolveFrom(cat, score, NextGeneration(cat, pop, scores, draws[gen]), draws, gen + 1, st')
  }

  /** `calcular_fitness` as a score on grids. */
  function FitnessOf(cat: Catalog, std: seq<int> -> real): seq<Cell> -> real
  {
    g => if IsGrid(g) then Fitness(cat, std, g) else 0.0
  }

  /** `executar` over `|draws|` generations: `None` where building the
      demand raises for want of a room. */
  function Evolution(cat: Catalog, std: seq<int> -> real, starts: seq<Start>, draws: seq<seq<PairDraw>>): Option<Outcome>
    requires |starts| > 0 && ValidDraws(draws, |starts|)
    requires forall i :: 0 <= i < |starts| ==> ValidStart(starts[i], |Demand(cat)|)
  {
    if !HasRoomFor(cat) then None
    else Some(EvolveFrom(cat, FitnessOf(cat, std), InitialGrids(cat, starts), draws, 0, Outcome(None, 0.0, [])))
  }

  // ---------------------------------------------------------------------
  // Properties of the run
  // ---------------------------------------------------------------------

  /** One generation of the run: its bookkeeping `st'`, and either the
      stop or the run continued from the next population. */
  lemma {:induction false} EvolveUnfold(cat: Catalog, score: seq<Cell> -> real, pop: seq<seq<Cell>>,
                     draws: seq<seq<PairDraw>>, gen: nat, st: Outcome) returns (st': Outcome, next: seq<seq<Cell>>)
    requires Runnable(cat, pop, draws, gen) && gen < |draws|
    ensures st' == Record(st, pop, Ranking.Scores(score, pop))
    ensures next == NextGeneration(cat, pop, Ranking.Scores(score, pop), draws[gen])
    ensures Stops(gen, st'.history) ==> EvolveFrom(cat, score, pop, draws, gen, st) == st'
    ensures !Stops(gen, st'.history) ==>
              Runnable(cat, next, draws, gen + 1)
              && EvolveFrom(cat, score, pop, draws, gen, st) == EvolveFrom(cat, score, next, draws, gen + 1, st')
  {
    st' := Record(st, pop, Ranking.Scores(score, pop));
    next := NextGeneration(cat, pop, Ranking.Scores(score, pop), draws[gen]);
  }

  /** Every grid scores at least `floor`. */
  ghost predicate Floored(score: seq<Cell> -> real, floor: real)
  {
    forall g :: IsGrid(g) ==> floor <= score(g)
  }

  lemma {:induction false} FitnessFloored(cat: Catalog, std: seq<int> -> real)
    ensures Floored(FitnessOf(cat, std), 750.0)
  {
    forall g | IsGrid(g) ensures 750.0 <= FitnessOf(cat, std)(g) {
      FitnessAtLeastLoad(cat, std, g);
    }
  }

  /** The recorded best is the agenda it names, scores what it says, and
      bounds every generation's best, each at least `floor`. */
  predicate Consistent(score: seq<Cell> -> real, floor: real, st: Outcome)
  {
    st.bestFitness >= 0.0
    && (st.best.None? <==> st.bestFitness == 0.0)
    && (st.best.Some? ==> IsGrid(st.best.value) && score(st.best.value) == st.bestFitness
                          && st.bestFitness in st.history)
    && forall i :: 0 <= i < |st.history| ==> floor <= st.history[i] <= st.bestFitness
  }

  lemma {:induction false} RecordConsistent(score: seq<Cell> -> real, floor: real, st: Outcome, pop: seq<seq<Cell>>)
    requires Consistent(score, floor, st) && Floored(score, floor) && |pop| > 0 && AllGrids(pop)
    ensures Consistent(score, floor, Record(st, pop, Ranking.Scores(score, pop)))
  {
    var scores := Ranking.Scores(score, pop);
    var top := Ranking.BestIndex(scores, true);
    assert floor <= score(pop[top]);
    var r := Record(st, pop, scores);
    assert r.history == st.history + [scores[top]];
  }

  lemma {:induction false} EvolveConsistent(cat: Catalog, score: seq<Cell> -> real, floor: real, pop: seq<seq<Cell>>,
                                            draws: seq<seq<PairDraw>>, gen: nat, st: Outcome)
    requires Runnable(cat, pop, draws, gen)
    requires Consistent(score, floor, st) && Floored(score, floor)
    ensures Consistent(score, floor, EvolveFrom(cat, score, pop, draws, gen, st))
    decreases |draws| - gen
  {
    if gen < |draws| {
      var st', next := EvolveUnfold(cat, score, pop, draws, gen, st);
      RecordConsistent(score, floor, st, pop);
      if !Stops(gen, st'.history) {
        EvolveConsistent(cat, score, floor, next, draws, gen + 1, st');
      }
    }
  }

  /** The run makes one history entry per generation, stops early exactly
      when the convergence test first passes, and otherwise runs every
      generation. */
  lemma {:induction false} EvolveRounds(cat: Catalog, score: seq<Cell> -> real, pop: seq<seq<Cell>>,
                                        draws: seq<seq<PairDraw>>, gen: nat, st: Outcome)
    requires Runnable(cat, pop, draws, gen)
    requires |st.history| == gen
    ensures var h := EvolveFrom(cat, score, pop, draws, gen, st).history;
            gen <= |h| <= |draws| && h[..gen] == st.history
            && (gen < |draws| ==> gen < |h|)
            && (|h| < |draws| ==> StopsAt(h, |h| - 1))
            && forall g :: gen <= g < |h| - 1 ==> !StopsAt(h, g)
    decreases |draws| - gen
  {
    if gen < |draws| {
      var st', next := EvolveUnfold(cat, score, pop, draws, gen, st);
      assert |st'.history| == gen + 1 && st'.history[..gen] == st.history;
      if Stops(gen, st'.history) {
        RoundsStop(st.history, st'.history, gen, |draws|);
      } else {
        EvolveRounds(cat, score, next, draws, gen + 1, st');
        RoundsContinue(st.history, st'.history, EvolveFrom(cat, score, next, draws, gen + 1, st').history, gen, |draws|);
      }
    }
  }

  /** The history of a run that stops at generation `gen`. */
  lemma {:induction false} RoundsStop(before: seq<real>, h: seq<real>, gen: nat, n: nat)
    requires |before| == gen && |h| == gen + 1 && h[..gen] == before && Stops(gen, h) && gen < n
    ensures StopsAt(h, gen)
  {
    assert h[..gen + 1] == h;
  }

  /** The history of a run that goes on past generation `gen`, whose
      record then was `mid`. */
  lemma {:induction false} RoundsContinue(before: seq<real>, mid: seq<real>, h: seq<real>, gen: nat, n: nat)
    requires |before| == gen && |mid| == gen + 1 && mid[..gen] == before && !Stops(gen, mid)
    requires gen + 1 <= |h| <= n && h[..gen + 1] == mid
    requires |h| < n ==> StopsAt(h, |h| - 1)
    requires forall g :: gen + 1 <= g < |h| - 1 ==> !StopsAt(h, g)
    ensures gen <= |h| <= n && h[..gen] == before && gen < |h|
            && (|h| < n ==> StopsAt(h, |h| - 1))
            && forall g :: gen <= g < |h| - 1 ==> !StopsAt(h, g)
  {
    assert h[..gen] == mid[..gen];
    forall g | gen <= g < |h| - 1
      ensures !StopsAt(h, g)
    {
      if g == gen {
        assert h[..g + 1] == mid;
      }
    }
  }

  predicate Sorted(h: seq<real>)
  {
    forall i, j :: 0 <= i < j < |h| ==> h[i] <= h[j]
  }

  /** Elitism makes the generation bests non-decreasing. */
  lemma {:induction false} EvolveMonotone(cat: Catalog, score: seq<Cell> -> real, pop: seq<seq<Cell>>,
                                          draws: seq<seq<PairDraw>>, gen: nat, st: Outcome)
    requires Runnable(cat, pop, draws, gen)
    requires Sorted(st.history)
    requires |st.history| > 0 ==> st.history[|st.history| - 1] <= score(pop[0])
    ensures Sorted(EvolveFrom(cat, score, pop, draws, gen, st).history)
    decreases |draws| - gen
  {
    if gen < |draws| {
      var st', next := EvolveUnfold(cat, score, pop, draws, gen, st);
      MonotoneStep(cat, score, pop, draws[gen], st);
      if !Stops(gen, st'.history) {
        EvolveMonotone(cat, score, next, draws, gen + 1, st');
      }
    }
  }

  /** One generation keeps the bests sorted and hands the next one a
      first individual no worse than the last best. */
  lemma {:induction false} MonotoneStep(cat: Catalog, score: seq<Cell> -> real, pop: seq<seq<Cell>>, ds: seq<PairDraw>, st: Outcome)
    requires |pop| > 0 && AllGrids(pop) && HasRoomFor(cat)
    requires |ds| == PairsNeeded(|pop|) && forall k :: 0 <= k < |ds| ==> ValidDraw(ds[k], |pop|)
    requires Sorted(st.history)
    requires |st.history| > 0 ==> st.history[|st.history| - 1] <= score(pop[0])
    ensures var scores := Ranking.Scores(score, pop);
            var h := Record(st, pop, scores).history;
            Sorted(h) && h[|h| - 1] <= score(NextGeneration(cat, pop, scores, ds)[0])
  {
    var scores := Ranking.Scores(score, pop);
    var top := Ranking.BestIndex(scores, true);
    assert scores[0] <= scores[top];
    SortedSnoc(st.history, scores[top]);
    NextGenerationKeepsBest(cat, score, pop, ds);
  }

  lemma {:induction false} SortedSnoc(h: seq<real>, x: real)
    requires Sorted(h) && (|h| > 0 ==> h[|h| - 1] <= x)
    ensures Sorted(h + [x])
  {
  }

  /** A run with at least one generation makes one history entry per
      generation, and ends early only when the convergence test passes,
      which it cannot before the warm-up is over. */
  lemma {:induction false} RunRounds(cat: Catalog, score: seq<Cell> -> real, pop: seq<seq<Cell>>, draws: seq<seq<PairDraw>>)
    requires Runnable(cat, pop, draws, 0) && |draws| > 0
    ensures var h := EvolveFrom(cat, score, pop, draws, 0, Outcome(None, 0.0, [])).history;
            1 <= |h| <= |draws|
            && (|h| < |draws| ==> |h| > WarmUp + 1 && Stalled(h))
            && forall g :: 0 <= g < |h| - 1 ==> !StopsAt(h, g)
  {
    RunLength(cat, score, pop, draws);
    RunStops(cat, score, pop, draws);
    RunNoEarlyStop(cat, score, pop, draws);
  }

  lemma {:induction false} RunLength(cat: Catalog, score: seq<Cell> -> real, pop: seq<seq<Cell>>, draws: seq<seq<PairDraw>>)
    requires Runnable(cat, pop, draws, 0) && |draws| > 0
    ensures var h := EvolveFrom(cat, score, pop, draws, 0, Outcome(None, 0.0, [])).history;
            1 <= |h| <= |draws|
  {
    EvolveRounds(cat, score, pop, draws, 0, Outcome(None, 0.0, []));
  }

  lemma {:induction false} RunStops(cat: Catalog, score: seq<Cell> -> real, pop: seq<seq<Cell>>, draws: seq<seq<PairDraw>>)
    requires Runnable(cat, pop, draws, 0)
    ensures var h := EvolveFrom(cat, score, pop, draws, 0, Outcome(None, 0.0, [])).history;
            |h| < |draws| ==> |h| > WarmUp + 1 && Stalled(h)
  {
    var st := Outcome(None, 0.0, []);
    EvolveRounds(cat, score, pop, draws, 0, st);
    var h := EvolveFrom(cat, score, pop, draws, 0, st).history;
    if |h| < |draws| {
      assert h[..|h|] == h;
    }
  }

  lemma {:induction false} RunNoEarlyStop(cat: Catalog, score: seq<Cell> -> real, pop: seq<seq<Cell>>, draws: seq<seq<PairDraw>>)
    requires Runnable(cat, pop, draws, 0)
    ensures var h := EvolveFrom(cat, score, pop, draws, 0, Outcome(None, 0.0, [])).history;
            forall g :: 0 <= g < |h| - 1 ==> !StopsAt(h, g)
  {
    EvolveRounds(cat, score, pop, draws, 0, Outcome(None, 0.0, []));
  }

  /** A finished run's report: a best agenda whose score is the last and
      largest of the never-decreasing generation bests, each at least
      `floor`. */
  predicate Reported(score: seq<Cell> -> real, floor: real, r: Outcome)
  {
    var h := r.history;
    |h| > 0 && Sorted(h)
    && (forall i :: 0 <= i < |h| ==> floor <= h[i])
    && r.best.Some? && IsGrid(r.best.value)
    && score(r.best.value) == r.bestFitness == h[|h| - 1]
  }

  /** What a run reports when every grid scores above zero: a best agenda
      whose score is the last and largest generation best, and generation
      bests that never decrease. */
  lemma {:induction false} RunBest(cat: Catalog, score: seq<Cell> -> real, floor: real, pop: seq<seq<Cell>>, draws: seq<seq<PairDraw>>)
    requires Runnable(cat, pop, draws, 0) && |draws| > 0 && Floored(score, floor) && floor > 0.0
    ensures Reported(score, floor, EvolveFrom(cat, score, pop, draws, 0, Outcome(None, 0.0, [])))
  {
    var r := EvolveFrom(cat, score, pop, draws, 0, Outcome(None, 0.0, []));
    RunRecord(cat, score, floor, pop, draws);
    BestIsLast(score, floor, r);
  }

  /** A run's record stays consistent and its generation bests never
      decrease. */
  lemma {:induction false} RunRecord(cat: Catalog, score: seq<Cell> -> real, floor: real, pop: seq<seq<Cell>>, draws: seq<seq<PairDraw>>)
    requires Runnable(cat, pop, draws, 0) && |draws| > 0 && Floored(score, floor) && floor > 0.0
    ensures var r := EvolveFrom(cat, score, pop, draws, 0, Outcome(None, 0.0, []));
            Consistent(score, floor, r) && Sorted(r.history) && |r.history| > 0
  {
    var st := Outcome(None, 0.0, []);
    RunLength(cat, score, pop, draws);
    EvolveConsistent(cat, score, floor, pop, draws, 0, st);
    EvolveMonotone(cat, score, pop, draws, 0, st);
  }

  /** A consistent record over non-decreasing generation bests above zero
      names its best agenda, and the best is the last generation's. */
  lemma {:induction false} BestIsLast(score: seq<Cell> -> real, floor: real, r: Outcome)
    requires Consistent(score, floor, r) && Sorted(r.history) && |r.history| > 0 && floor > 0.0
    ensures Reported(score, floor, r)
  {
    var h := r.history;
    assert r.bestFitness >= h[0] >= floor;
    var i :| 0 <= i < |h| && h[i] == r.bestFitness;
    assert i < |h| - 1 ==> h[i] <= h[|h| - 1];
  }

  /** `executar`'s run, as `RunRounds` states it. */
  lemma {:induction false} EvolutionRounds(cat: Catalog, std: seq<int> -> real, starts: seq<Start>, draws: seq<seq<PairDraw>>)
    requires |starts| > 0 && ValidDraws(draws, |starts|)
    requires forall i :: 0 <= i < |starts| ==> ValidStart(starts[i], |Demand(cat)|)
    requires HasRoomFor(cat) && |draws| > 0
    ensures Evolution(cat, std, starts, draws).Some?
    ensures var h := Evolution(cat, std, starts, draws).value.history;
            1 <= |h| <= |draws|
            && (|h| < |draws| ==> |h| > WarmUp + 1 && Stalled(h))
            && forall g :: 0 <= g < |h| - 1 ==> !StopsAt(h, g)
  {
    RunRounds(cat, FitnessOf(cat, std), InitialGrids(cat, starts), draws);
  }

  /** `executar`'s report: the returned agenda has the returned fitness,
      the last and largest of the never-decreasing generation bests, each
      at least 750. */
  lemma {:induction false} EvolutionBest(cat: Catalog, std: seq<int> -> real, starts: seq<Start>, draws: seq<seq<PairDraw>>)
    requires |starts| > 0 && ValidDraws(draws, |starts|)
    requires forall i :: 0 <= i < |starts| ==> ValidStart(starts[i], |Demand(cat)|)
    requires HasRoomFor(cat) && |draws| > 0
    ensures Evolution(cat, std, starts, draws).Some?
    ensures Reported(FitnessOf(cat, std), 750.0, Evolution(cat, std, starts, draws).value)
  {
    FitnessFloored(cat, std);
    RunBest(cat, FitnessOf(cat, std), 750.0, InitialGrids(cat, starts), draws);
  }

  // ---------------------------------------------------------------------
  // The run, on agendas
  // ---------------------------------------------------------------------

  predicate AllWeeks(pop: seq<array2<Cell>>)
  {
    forall i :: 0 <= i < |pop| ==> IsWeek(pop[i])
  }

  /** The cells of every agenda of a population. */
  function CellsOf(pop: seq<array2<Cell>>): (r: seq<seq<Cell>>)
    requires AllWeeks(pop)
    reads set i | 0 <= i < |pop| :: pop[i]
    ensures |r| == |pop| && AllGrids(r)
    ensures forall i :: 0 <= i < |pop| ==> r[i] == Cells(pop[i])
  {
    if pop == [] then [] else CellsOf(pop[..|pop| - 1]) + [Cells(pop[|pop| - 1])]
  }

  /** The agendas `pop` hold the grids `cells`, one for one. */
  predicate Shows(pop: seq<array2<Cell>>, cells: seq<seq<Cell>>)
    reads set i | 0 <= i < |pop| :: pop[i]
  {
    AllWeeks(pop) && |cells| == |pop| && AllGrids(cells)
    && forall i :: 0 <= i < |pop| ==> Cells(pop[i]) == cells[i]
  }

  lemma {:induction false} ShowsAppend(pop: seq<array2<Cell>>, cells: seq<seq<Cell>>, more: seq<array2<Cell>>, extra: seq<seq<Cell>>)
    requires Shows(pop, cells) && Shows(more, extra)
    ensures Shows(pop + more, cells + extra)
  {
  }

  lemma {:induction false} ShowsPrefix(pop: seq<array2<Cell>>, cells: seq<seq<Cell>>, n: nat)
    requires Shows(pop, cells) && n <= |pop|
    ensures Shows(pop[..n], cells[..n])
  {
  }

  /** `inicializar_populacao`: one placed agenda per start. */
  method Initialize(cat: Catalog, lessons: seq<Lesson>, starts: seq<Start>) returns (pop: seq<array2<Cell>>)
    requires lessons == Demand(cat)
    requires forall i :: 0 <= i < |starts| ==> ValidStart(starts[i], |lessons|)
    ensures Shows(pop, InitialGrids(cat, starts)) && forall i :: 0 <= i < |pop| ==> fresh(pop[i])
  {
    ghost var want := InitialGrids(cat, starts);
    pop := [];
    var i := 0;
    while i < |starts|
      invariant 0 <= i <= |starts|
      invariant Shows(pop, want[..i]) && forall j :: 0 <= j < |pop| ==> fresh(pop[j])
    {
      var order := Shuffled(lessons, starts[i].perm);
      var a := PlaceLessons(cat.availability, order, starts[i].cells, true);
      ShowsAppend(pop, want[..i], [a], [Cells(a)]);
      assert want[..i + 1] == want[..i] + [Cells(a)];
      pop := pop + [a];
      i := i + 1;
    }
    assert want[..i] == want;
  }

  /** One pass of the refill loop: two tournaments, the crossover and the
      mutation of both children. */
  method BreedPair(cat: Catalog, pop: seq<array2<Cell>>, ghost cells: seq<seq<Cell>>, scores: seq<real>, d: PairDraw)
    returns (f1: array2<Cell>, f2: array2<Cell>)
    requires Shows(pop, cells) && |scores| == |pop| && HasRoomFor(cat) && ValidDraw(d, |pop|)
    ensures fresh(f1) && fresh(f2) && IsWeek(f1) && IsWeek(f2)
    ensures [Cells(f1), Cells(f2)] == Offspring(cat, cells, scores, d)
  {
    var p1 := Tournament(pop, scores, d.sample1);
    var p2 := Tournament(pop, scores, d.sample2);
    f1, f2 := Crossover(cat, p1, p2, d.coin, d.days);
    f1 := Mutate(f1, d.attempts1);
    f2 := Mutate(f2, d.attempts2);
  }

  /** The elitism loop: a copy of each elite, in rank order. */
  method CopyElites(pop: seq<array2<Cell>>, ghost cells: seq<seq<Cell>>, e: seq<nat>) returns (elites: seq<array2<Cell>>)
    requires Shows(pop, cells) && forall i :: 0 <= i < |e| ==> e[i] < |pop|
    ensures Shows(elites, EliteGrids(cells, e)) && forall j :: 0 <= j < |elites| ==> fresh(elites[j])
  {
    ghost var want := EliteGrids(cells, e);
    elites := [];
    var i := 0;
    while i < |e|
      invariant 0 <= i <= |e|
      invariant Shows(elites, want[..i]) && forall j :: 0 <= j < |elites| ==> fresh(elites[j])
    {
      var c := CopyGrid(pop[e[i]]);
      ShowsAppend(elites, want[..i], [c], [Cells(c)]);
      assert want[..i + 1] == want[..i] + [Cells(c)];
      elites := elites + [c];
      i := i + 1;
    }
    assert want[..i] == want;
  }

  /** `want` holds, pair by pair, the lists `f` gives the draws `ds`. */
  ghost predicate PairsOf<D, X>(f: D --> seq<X>, ds: seq<D>, want: seq<X>)
  {
    |want| == 2 * |ds| && forall k :: 0 <= k < |ds| ==> f.requires(ds[k]) && want[2 * k..2 * k + 2] == f(ds[k])
  }

  lemma {:induction false} PairsOfSnoc<D, X>(f: D --> seq<X>, ds: seq<D>, k: nat, want: seq<X>, pair: seq<X>)
    requires k < |ds| && PairsOf(f, ds[..k], want) && f.requires(ds[k]) && pair == f(ds[k]) && |pair| == 2
    ensures PairsOf(f, ds[..k + 1], want + pair)
  {
    var w := want + pair;
    forall j | 0 <= j < k + 1
      ensures f.requires(ds[..k + 1][j]) && w[2 * j..2 * j + 2] == f(ds[..k + 1][j])
    {
      if j < k {
        assert w[2 * j..2 * j + 2] == want[2 * j..2 * j + 2];
        assert ds[..k + 1][j] == ds[..k][j];
      } else {
        assert w[2 * j..2 * j + 2] == pair;
      }
    }
  }

  lemma {:induction false} PairsOfPrefix<D, X>(f: D --> seq<X>, ds: seq<D>, want: seq<X>, n: nat)
    requires PairsOf(f, ds, want) && n <= |ds|
    ensures PairsOf(f, ds[..n], want[..2 * n])
  {
    var front := want[..2 * n];
    forall j | 0 <= j < n
      ensures f.requires(ds[..n][j]) && front[2 * j..2 * j + 2] == f(ds[..n][j])
    {
      assert front[2 * j..2 * j + 2] == want[2 * j..2 * j + 2];
    }
  }

  /** Lists collected pair by pair are the flattening of `f` over the draws. */
  lemma {:induction false} PairsOfFlatten<D, X>(f: D --> seq<X>, ds: seq<D>, want: seq<X>)
    requires PairsOf(f, ds, want)
    ensures forall k :: 0 <= k < |ds| ==> f.requires(ds[k])
    ensures want == Flatten(f, ds)
    decreases |ds|
  {
    if ds != [] {
      var n := |ds| - 1;
      PairsOfPrefix(f, ds, want, n);
      PairsOfFlatten(f, ds[..n], want[..2 * n]);
      assert want == want[..2 * n] + want[2 * n..2 * n + 2];
    }
  }

  /** The refill loop: pairs of children until elites and children fill
      the population. */
  method BreedChildren(cat: Catalog, pop: seq<array2<Cell>>, ghost cells: seq<seq<Cell>>, scores: seq<real>,
                       ds: seq<PairDraw>, e: nat)
    returns (kids: seq<array2<Cell>>)
    requires |pop| > 0 && Shows(pop, cells) && |scores| == |pop| && HasRoomFor(cat) && e == EliteSize(|pop|)
    requires |ds| == PairsNeeded(|pop|) && forall k :: 0 <= k < |ds| ==> ValidDraw(ds[k], |pop|)
    ensures Shows(kids, Children(cat, cells, scores, ds)) && forall j :: 0 <= j < |kids| ==> fresh(kids[j])
  {
    ghost var f := Breeder(cat, cells, scores);
    ghost var want: seq<seq<Cell>> := [];
    kids := [];
    var k := 0;
    while e + |kids| < |pop|
      invariant 0 <= k <= |ds| && |kids| == 2 * k
      invariant Shows(kids, want) && forall j :: 0 <= j < |kids| ==> fresh(kids[j])
      invariant PairsOf(f, ds[..k], want)
      decreases |pop| - |kids|
    {
      PairsNeededCovers(|pop|, k);
      var f1, f2 := BreedPair(cat, pop, cells, scores, ds[k]);
      ShowsAppend(kids, want, [f1, f2], [Cells(f1), Cells(f2)]);
      PairsOfSnoc(f, ds, k, want, [Cells(f1), Cells(f2)]);
      want := want + [Cells(f1), Cells(f2)];
      kids := kids + [f1, f2];
      k := k + 1;
    }
    PairsNeededCovers(|pop|, k);
    assert ds[..k] == ds;
    PairsOfFlatten(f, ds, want);
  }

  /** The body of one generation after the stop test: fresh agendas for the
      next population, holding the grids `NextGeneration` names. */
  method Breed(cat: Catalog, pop: seq<array2<Cell>>, ghost cells: seq<seq<Cell>>, scores: seq<real>, ds: seq<PairDraw>)
    returns (next: seq<array2<Cell>>)
    requires |pop| > 0 && Shows(pop, cells) && |scores| == |pop| && HasRoomFor(cat)
    requires |ds| == PairsNeeded(|pop|) && forall k :: 0 <= k < |ds| ==> ValidDraw(ds[k], |pop|)
    ensures Shows(next, NextGeneration(cat, cells, scores, ds)) && forall i :: 0 <= i < |next| ==> fresh(next[i])
  {
    var e := Elites(scores);
    var elites := CopyElites(pop, cells, e);
    var kids := BreedChildren(cat, pop, cells, scores, ds, |e|);
    PairsNeededCovers(|pop|, |ds|);
    ghost var all := EliteGrids(cells, e) + Children(cat, cells, scores, ds);
    ShowsAppend(elites, EliteGrids(cells, e), kids, Children(cat, cells, scores, ds));
    ShowsPrefix(elites + kids, all, |pop|);
    next := (elites + kids)[..|pop|];
  }

  /** `executar`: `ok` is false where building the demand raises; otherwise
      the reported best agenda, its fitness and the history are those of
      `Evolution`. */
  method Evolve(cat: Catalog, std: seq<int> -> real, starts: seq<Start>, draws: seq<seq<PairDraw>>)
    returns (ok: bool, best: Option<array2<Cell>>, bestFitness: real, history: seq<real>)
    requires |starts| > 0 && ValidDraws(draws, |starts|)
    requires forall i :: 0 <= i < |starts| ==> ValidStart(starts[i], |Demand(cat)|)
    ensures ok == HasRoomFor(cat)
    ensures ok ==> var r := Evolution(cat, std, starts, draws).value;
                   history == r.history && bestFitness == r.bestFitness
                   && (best.Some? <==> r.best.Some?)
                   && (best.Some? ==> IsWeek(best.value) && Cells(best.value) == r.best.value)
  {
    var demand := BuildDemand(cat);
    if demand.None? {
      return false, None, 0.0, [];
    }
    ok := true;
    var pop := Initialize(cat, demand.value, starts);
    best, bestFitness, history := Run(cat, FitnessOf(cat, std), pop, InitialGrids(cat, starts), draws);
  }

  /** The generation loop of `executar` from an initial population holding
      `cells`: what it reports is what `EvolveFrom` computes. */
  method Run(cat: Catalog, score: seq<Cell> -> real, pop0: seq<array2<Cell>>, ghost cells0: seq<seq<Cell>>,
             draws: seq<seq<PairDraw>>)
    returns (best: Option<array2<Cell>>, bestFitness: real, history: seq<real>)
    requires Shows(pop0, cells0) && Runnable(cat, cells0, draws, 0)
    ensures best.Some? ==> IsWeek(best.value)
    ensures Seen(best, bestFitness, history) == EvolveFrom(cat, score, cells0, draws, 0, Outcome(None, 0.0, []))
  {
    var pop := pop0;
    ghost var cells := cells0;
    best, bestFitness, history := None, 0.0, [];
    ghost var final := EvolveFrom(cat, score, cells0, draws, 0, Outcome(None, 0.0, []));
    ghost var st := Outcome(None, 0.0, []);
    var gen := 0;
    while gen < |draws|
      invariant gen <= |draws| && Shows(pop, cells) && Runnable(cat, cells, draws, gen)
      invariant best.Some? ==> IsWeek(best.value)
      invariant st == Seen(best, bestFitness, history)
      invariant EvolveFrom(cat, score, cells, draws, gen, st) == final
      decreases |draws| - gen
    {
      var stop;
      stop, pop, cells, best, bestFitness, history := Generation(cat, score, pop, cells, draws, gen, best, bestFitness, history);
      st := Seen(best, bestFitness, history);
      if stop {
        return;
      }
      gen := gen + 1;
    }
  }

  /** One generation of `executar`: the bookkeeping, the stop test and, when
      the run goes on, the next population. */
  method Generation(cat: Catalog, score: seq<Cell> -> real, pop: seq<array2<Cell>>, ghost cells: seq<seq<Cell>>,
                    draws: seq<seq<PairDraw>>, gen: nat,
                    best: Option<array2<Cell>>, bestFitness: real, history: seq<real>)
    returns (stop: bool, pop': seq<array2<Cell>>, ghost cells': seq<seq<Cell>>,
             best': Option<array2<Cell>>, bestFitness': real, history': seq<real>)
    requires Shows(pop, cells) && Runnable(cat, cells, draws, gen) && gen < |draws|
    requires best.Some? ==> IsWeek(best.value)
    ensures best'.Some? ==> IsWeek(best'.value)
    ensures stop ==> Seen(best', bestFitness', history')
                     == EvolveFrom(cat, score, cells, draws, gen, Seen(best, bestFitness, history))
    ensures !stop ==> Shows(pop', cells') && Runnable(cat, cells', draws, gen + 1)
                      && EvolveFrom(cat, score, cells', draws, gen + 1, Seen(best', bestFitness', history'))
                         == EvolveFrom(cat, score, cells, draws, gen, Seen(best, bestFitness, history))
  {
    ghost var st', next := EvolveUnfold(cat, score, cells, draws, gen, Seen(best, bestFitness, history));
    var scores;
    scores, best', bestFitness', history' := Observe(score, pop, cells, best, bestFitness, history);
    stop := Stops(gen, history');
    pop', cells' := pop, cells;
    if !stop {
      pop' := Breed(cat, pop, cells, scores, draws[gen]);
      cells' := next;
    }
  }

  lemma {:induction false} ShowsCellsOf(pop: seq<array2<Cell>>, cells: seq<seq<Cell>>)
    requires Shows(pop, cells)
    ensures CellsOf(pop) == cells
  {
  }

  /** The bookkeeping of one generation: score every agenda, keep a copy of
      the first best one when it beats the best so far, and log its score. */
  method Observe(score: seq<Cell> -> real, pop: seq<array2<Cell>>, ghost cells: seq<seq<Cell>>,
                 best: Option<array2<Cell>>, bestFitness: real, history: seq<real>)
    returns (scores: seq<real>, best': Option<array2<Cell>>, bestFitness': real, history': seq<real>)
    requires |pop| > 0 && Shows(pop, cells) && (best.Some? ==> IsWeek(best.value))
    ensures scores == Ranking.Scores(score, cells) && (best'.Some? ==> IsWeek(best'.value))
    ensures Seen(best', bestFitness', history') == Record(Seen(best, bestFitness, history), cells, scores)
  {
    ShowsCellsOf(pop, cells);
    scores := Ranking.Scores(score, CellsOf(pop));
    var top := Ranking.BestIndex(scores, true);
    best', bestFitness' := best, bestFitness;
    if scores[top] > bestFitness {
      bestFitness' := scores[top];
      var c := CopyGrid(pop[top]);
      best' := Some(c);
    }
    history' := history + [scores[top]];
  }

  /** The outcome an in-progress run has recorded so far. */
  ghost function Seen(best: Option<array2<Cell>>, bestFitness: real, history: seq<real>): Outcome
    requires best.Some? ==> IsWeek(best.value)
    reads if best.Some? then {best.value} else {}
  {
    Outcome(if best.Some? then Some(Cells(best.value)) else None, bestFitness, history)
  }
}
