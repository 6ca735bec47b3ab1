/** The generational loop of the list optimiser (`executar` together with
    `inicializar_populacao`). Each generation scores every chromosome,
    records the first top-scoring one, stops once that score reaches 9500,
    and otherwise starts the next population with a copy of it and fills
    the rest with pairs bred by tournament, crossover and mutation, cut to
    the population size. Every random draw is a parameter: one `Pick` per
    gene of every initial chromosome, and for each generation one
    `PairDraw` per bred pair. */
module ListEvolution {
  import opened Wrappers
  import opened Counting
  import opened Records
  import opened GridGenome
  import opened ListGenome
  import opened ListFitness
  import opened ListVariation
  import Ranking

  /** A generation whose best reaches this ends the run. */
  const StopFitness: real := 9500.0

  // ---------------------------------------------------------------------
  // Draws
  // ---------------------------------------------------------------------

  /** The draws that breed one pair: two tournament samples, the crossover
      coin and cut points, and one draw per gene of each child. */
  datatype PairDraw = PairDraw(sample1: seq<nat>, sample2: seq<nat>, coin: real, cut1: nat, cut2: nat,
                               genes1: seq<GeneDraw>, genes2: seq<GeneDraw>)

  /** Draws for a population of `n` chromosomes of `len` genes. */
  predicate ValidDraw(d: PairDraw, n: nat, len: nat)
  {
    Ranking.IsSample(d.sample1, n, TournamentSize) && Ranking.IsSample(d.sample2, n, TournamentSize)
    && (d.coin <= CrossoverRate ==> ValidCuts(len, d.cut1, d.cut2))
    && ValidGeneDraws(d.genes1, len) && ValidGeneDraws(d.genes2, len)
  }

  /** After the elite, the refill loop breeds pairs until the population
      size is reached. */
  function PairsNeeded(n: nat): nat
  {
    n / 2
  }

  /** The refill loop, which starts from the one elite, runs for exactly
      the pairs it needs. */
  lemma {:induction false} PairsNeededCovers(n: nat, k: nat)
    ensures k < PairsNeeded(n) <==> 1 + 2 * k < n
  {
  }

  predicate ValidDraws(draws: seq<seq<PairDraw>>, n: nat, len: nat)
  {
    forall g :: 0 <= g < |draws| ==>
      |draws[g]| == PairsNeeded(n) && forall k :: 0 <= k < |draws[g]| ==> ValidDraw(draws[g][k], n, len)
  }

  // ---------------------------------------------------------------------
  // One generation, on values
  // ---------------------------------------------------------------------

  /** Every chromosome has `len` genes. */
  predicate Shaped(pop: seq<seq<Gene>>, len: nat)
  {
    forall i :: 0 <= i < |pop| ==> |pop[i]| == len
  }

  /** Every chromosome holds the lessons `ls`, in that order. */
  predicate Uniform(pop: seq<seq<Gene>>, ls: seq<Lesson>)
  {
    forall i :: 0 <= i < |pop| ==> LessonsOf(pop[i]) == ls
  }

  /** One pass of the refill loop: two tournaments, the crossover and the
      mutation of both children. */
  function Offspring(pop: seq<seq<Gene>>, scores: seq<real>, len: nat, d: PairDraw): (r: seq<seq<Gene>>)
    requires Shaped(pop, len) && |scores| == |pop| && ValidDraw(d, |pop|, len)
    ensures |r| == 2 && Shaped(r, len)
  {
    var p1 := Tournament(pop, scores, d.sample1);
    var p2 := Tournament(pop, scores, d.sample2);
    var c := Crossover(p1, p2, d.coin, d.cut1, d.cut2);
    [Mutated(c.0, d.genes1), Mutated(c.1, d.genes2)]
  }

  /** Both children of parents holding the lessons `ls` hold them too. */
  lemma {:induction false} OffspringLessons(pop: seq<seq<Gene>>, scores: seq<real>, ls: seq<Lesson>, d: PairDraw)
    requires Uniform(pop, ls) && Shaped(pop, |ls|) && |scores| == |pop| && ValidDraw(d, |pop|, |ls|)
    ensures Uniform(Offspring(pop, scores, |ls|, d), ls)
  {
    var p1 := Tournament(pop, scores, d.sample1);
    var p2 := Tournament(pop, scores, d.sample2);
    CrossoverKeepsLessons(p1, p2, d.coin, d.cut1, d.cut2);
  }

  /** The children bred from the given pair draws, in order. */
  function Children(pop: seq<seq<Gene>>, scores: seq<real>, len: nat, ds: seq<PairDraw>): (r: seq<seq<Gene>>)
    requires Shaped(pop, len) && |scores| == |pop|
    requires forall k :: 0 <= k < |ds| ==> ValidDraw(ds[k], |pop|, len)
    ensures |r| == 2 * |ds| && Shaped(r, len)
  {
    if ds == [] then []
    else Children(pop, scores, len, ds[..|ds| - 1]) + Offspring(pop, scores, len, ds[|ds| - 1])
  }

  lemma {:induction false} ChildrenLessons(pop: seq<seq<Gene>>, scores: seq<real>, ls: seq<Lesson>, ds: seq<PairDraw>)
    requires Uniform(pop, ls) && Shaped(pop, |ls|) && |scores| == |pop|
    requires forall k :: 0 <= k < |ds| ==> ValidDraw(ds[k], |pop|, |ls|)
    ensures Uniform(Children(pop, scores, |ls|, ds), ls)
  {
    if ds != [] {
      ChildrenLessons(pop, scores, ls, ds[..|ds| - 1]);
      OffspringLessons(pop, scores, ls, ds[|ds| - 1]);
    }
  }

  /** The next population: a copy of the first top-scoring chromosome,
      then the children, cut to the population size. It has the size of
      the old one and starts with the best. */
  function NextGeneration(pop: seq<seq<Gene>>, scores: seq<real>, len: nat, ds: seq<PairDraw>): (r: seq<seq<Gene>>)
    requires |pop| > 0 && Shaped(pop, len) && |scores| == |pop|
    requires |ds| == PairsNeeded(|pop|) && forall k :: 0 <= k < |ds| ==> ValidDraw(ds[k], |pop|, len)
    ensures |r| == |pop| && Shaped(r, len)
    ensures r[0] == pop[Ranking.BestIndex(scores, true)]
  {
    ([pop[Ranking.BestIndex(scores, true)]] + Children(pop, scores, len, ds))[..|pop|]
  }

  /** Breeding keeps the lessons of the population. */
  lemma {:induction false} NextGenerationLessons(pop: seq<seq<Gene>>, scores: seq<real>, ls: seq<Lesson>, ds: seq<PairDraw>)
    requires |pop| > 0 && Uniform(pop, ls) && Shaped(pop, |ls|) && |scores| == |pop|
    requires |ds| == PairsNeeded(|pop|) && forall k :: 0 <= k < |ds| ==> ValidDraw(ds[k], |pop|, |ls|)
    ensures Uniform(NextGeneration(pop, scores, |ls|, ds), ls)
  {
    ChildrenLessons(pop, scores, ls, ds);
    var all := [pop[Ranking.BestIndex(scores, true)]] + Children(pop, scores, |ls|, ds);
    assert Uniform(all, ls);
  }

  // ---------------------------------------------------------------------
  // The run, on values
  // ---------------------------------------------------------------------

  /** What the run from generation `gen` needs of its population and draws. */
  predicate Runnable(len: nat, pop: seq<seq<Gene>>, draws: seq<seq<PairDraw>>, gen: nat)
  {
    |pop| > 0 && Shaped(pop, len) && ValidDraws(draws, |pop|, len) && gen <= |draws|
  }

  /** The population of each generation from `gen` on, were the run never
      stopped: each one bred from the one before with that generation's
      draws. Each has the size of the first, the chromosomes their length,
      and each starts with a copy of its predecessor's first best. */
  function Populations(score: seq<Gene> -> real, len: nat, pop: seq<seq<Gene>>,
                       draws: seq<seq<PairDraw>>, gen: nat): (r: seq<seq<seq<Gene>>>)
    requires Runnable(len, pop, draws, gen)
    ensures |r| == |draws| - gen && (|r| > 0 ==> r[0] == pop)
    ensures forall k :: 0 <= k < |r| ==> |r[k]| == |pop| && Shaped(r[k], len)
    ensures Bred(score, len, r, draws, gen)
    decreases |draws| - gen
  {
    if gen + 1 >= |draws| then (if gen == |draws| then [] else [pop])
    else
      var next := NextGeneration(pop, Ranking.Scores(score, pop), len, draws[gen]);
      var rest := Populations(score, len, next, draws, gen + 1);
      BredCons(score, len, pop, rest, draws, gen);
      [pop] + rest
  }

  lemma {:induction false} BredCons(score: seq<Gene> -> real, len: nat, pop: seq<seq<Gene>>, rest: seq<seq<seq<Gene>>>,
                 draws: seq<seq<PairDraw>>, gen: nat)
    requires Runnable(len, pop, draws, gen) && gen + 1 < |draws|
    requires |rest| > 0 && rest[0] == NextGeneration(pop, Ranking.Scores(score, pop), len, draws[gen])
    requires Bred(score, len, rest, draws, gen + 1)
    requires forall k :: 0 <= k < |rest| ==> |rest[k]| == |pop| && Shaped(rest[k], len)
    ensures Bred(score, len, [pop] + rest, draws, gen)
    ensures forall k :: 0 <= k < |rest| + 1 ==> |([pop] + rest)[k]| == |pop| && Shaped(([pop] + rest)[k], len)
  {
    var pops := [pop] + rest;
    assert forall k :: 1 <= k < |rest| + 1 ==> pops[k] == rest[k - 1];
    forall k | 0 <= k < |pops| - 1 ensures BredAt(score, len, pops, draws, gen, k) {
      if k > 0 {
        assert BredAt(score, len, rest, draws, gen + 1, k - 1);
      }
    }
  }

  /** Each population but the first is bred from the one before, with the
      draws of that one's generation. */
  predicate Bred(score: seq<Gene> -> real, len: nat, pops: seq<seq<seq<Gene>>>, draws: seq<seq<PairDraw>>, gen: nat)
  {
    forall k :: 0 <= k < |pops| - 1 ==> BredAt(score, len, pops, draws, gen, k)
  }

  /** Population `k + 1` is bred from population `k` with the draws of
      generation `gen + k`. */
  predicate BredAt(score: seq<Gene> -> real, len: nat, pops: seq<seq<seq<Gene>>>, draws: seq<seq<PairDraw>>,
                   gen: nat, k: nat)
    requires k + 1 < |pops|
  {
    Runnable(len, pops[k], draws, gen + k) && gen + k < |draws|
    && pops[k + 1] == NextGeneration(pops[k], Ranking.Scores(score, pops[k]), len, draws[gen + k])
  }

  /** Each population after the first starts with a copy of the first
      top-scoring chromosome of the one before. */
  predicate Elitist(score: seq<Gene> -> real, pops: seq<seq<seq<Gene>>>)
  {
    forall k :: 0 <= k < |pops| - 1 ==> KeepsBest(score, pops, k)
  }

  predicate KeepsBest(score: seq<Gene> -> real, pops: seq<seq<seq<Gene>>>, k: nat)
    requires k + 1 < |pops|
  {
    |pops[k]| > 0 && |pops[k + 1]| > 0 && pops[k + 1][0] == pops[k][Ranking.BestIndex(Ranking.Scores(score, pops[k]), true)]
  }

  /** What `executar` returns: the best chromosome so far and its fitness
      (`None` for the starting best of minus infinity), and every
      generation's best fitness. */
  datatype Outcome = Outcome(best: Option<seq<Gene>>, bestFitness: Option<real>, history: seq<real>)

  const Unscored: Outcome := Outcome(None, None, [])

  /** A generation's bookkeeping: the first chromosome with the top score
      replaces the best on a strict improvement (always, the first time);
      the top score is appended to the history. */
  function Record(st: Outcome, pop: seq<seq<Gene>>, scores: seq<real>): Outcome
    requires |scores| == |pop| > 0
  {
    var top := Ranking.BestIndex(scores, true);
    var improved := st.bestFitness.None? || scores[top] > st.bestFitness.value;
    Outcome(if improved then Some(pop[top]) else st.best,
            if improved then Some(scores[top]) else st.bestFitness,
            st.history + [scores[top]])
  }

  /** The stop test on the newest generation best. */
  predicate Stops(h: seq<real>)
  {
    |h| > 0 && h[|h| - 1] >= StopFitness
  }

  /** The generation loop over the given populations: each one is scored
      and recorded, and the loop ends after the first whose best reaches
      9500 or after the last. */
  function Replay(score: seq<Gene> -> real, pops: seq<seq<seq<Gene>>>, st: Outcome): Outcome
    requires forall k :: 0 <= k < |pops| ==> |pops[k]| > 0
  {
    if pops == [] then st
    else
      var st' := Record(st, pops[0], Ranking.Scores(score, pops[0]));
      if Stops(st'.history) then st' else Replay(score, pops[1..], st')
  }

  /** A run from generation `gen` of the population `pop`. */
  function EvolveFrom(score: seq<Gene> -> real, len: nat, pop: seq<seq<Gene>>,
                      draws: seq<seq<PairDraw>>, gen: nat, st: Outcome): Outcome
    requires Runnable(len, pop, draws, gen)
  {
    Replay(score, Populations(score, len, pop, draws, gen), st)
  }

  /** `avaliar_fitness` as a score on chromosomes (the source raises where
      it is `None`, which no chromosome of a run reaches: `DemandScored`). */
  function FitnessOf(cat: Catalog): seq<Gene> -> real
  {
    (c: seq<Gene>) => match Evaluate(cat, c) case Some(v) => v as real case None => 0.0
  }

  /** `executar` over `|draws|` generations: `None` where creating the
      initial population raises for want of a room. */
  function Evolution(cat: Catalog, starts: seq<seq<Pick>>, draws: seq<seq<PairDraw>>): Option<Outcome>
    requires |starts| > 0 && ValidDraws(draws, |starts|, |Demand(cat)|)
    requires forall i :: 0 <= i < |starts| ==> |starts[i]| == |Demand(cat)|
  {
    if !HasRoomFor(cat) then None
    else Some(EvolveFrom(FitnessOf(cat), |Demand(cat)|, InitialPopulation(Demand(cat), starts), draws, 0, Unscored))
  }

  // ---------------------------------------------------------------------
  // Properties of the run
  // ---------------------------------------------------------------------

  /** The populations from generation `gen` on: this one, then those bred
      from the next. */
  lemma {:induction false} PopulationsUnfold(score: seq<Gene> -> real, len: nat, pop: seq<seq<Gene>>,
                          draws: seq<seq<PairDraw>>, gen: nat) returns (next: seq<seq<Gene>>)
    requires Runnable(len, pop, draws, gen) && gen + 1 < |draws|
    ensures next == NextGeneration(pop, Ranking.Scores(score, pop), len, draws[gen])
    ensures Runnable(len, next, draws, gen + 1)
    ensures Populations(score, len, pop, draws, gen) == [pop] + Populations(score, len, next, draws, gen + 1)
  {
    next := NextGeneration(pop, Ranking.Scores(score, pop), len, draws[gen]);
  }

  /** Every population holds the lessons `ls` throughout. */
  predicate AllUniform(pops: seq<seq<seq<Gene>>>, ls: seq<Lesson>)
  {
    forall k :: 0 <= k < |pops| ==> Uniform(pops[k], ls)
  }

  lemma {:induction false} BredLessonsAt(score: seq<Gene> -> real, ls: seq<Lesson>, pops: seq<seq<seq<Gene>>>,
                                         draws: seq<seq<PairDraw>>, gen: nat, k: nat)
    requires Bred(score, |ls|, pops, draws, gen) && |pops| > 0 && Uniform(pops[0], ls) && k < |pops|
    ensures Uniform(pops[k], ls)
  {
    if k > 0 {
      assert BredAt(score, |ls|, pops, draws, gen, k - 1);
      BredLessonsAt(score, ls, pops, draws, gen, k - 1);
      NextGenerationLessons(pops[k - 1], Ranking.Scores(score, pops[k - 1]), ls, draws[gen + k - 1]);
    }
  }

  /** Breeding from chromosomes holding the lessons `ls` keeps them in
      every generation. */
  lemma {:induction false} PopulationsLessons(score: seq<Gene> -> real, ls: seq<Lesson>, pop: seq<seq<Gene>>,
                           draws: seq<seq<PairDraw>>, gen: nat)
    requires Runnable(|ls|, pop, draws, gen) && Uniform(pop, ls)
    ensures AllUniform(Populations(score, |ls|, pop, draws, gen), ls)
  {
    var r := Populations(score, |ls|, pop, draws, gen);
    forall k | 0 <= k < |r| ensures Uniform(r[k], ls) {
      BredLessonsAt(score, ls, r, draws, gen, k);
    }
  }

  /** Each population after the first starts with the best of the one
      before. */
  lemma {:induction false} PopulationsElitist(score: seq<Gene> -> real, len: nat, pop: seq<seq<Gene>>,
                           draws: seq<seq<PairDraw>>, gen: nat)
    requires Runnable(len, pop, draws, gen)
    ensures Elitist(score, Populations(score, len, pop, draws, gen))
  {
    var r := Populations(score, len, pop, draws, gen);
    forall k | 0 <= k < |r| - 1 ensures KeepsBest(score, r, k) {
      assert BredAt(score, len, r, draws, gen, k);
    }
  }

  /** The recorded best is a chromosome holding the lessons `ls`, scores
      what the record says it does, and bounds every generation best; the
      record is empty exactly until the first generation is scored. */
  predicate Consistent(score: seq<Gene> -> real, ls: seq<Lesson>, st: Outcome)
  {
    (st.best.None? <==> st.bestFitness.None?)
    && (st.best.None? <==> st.history == [])
    && (st.best.Some? ==> LessonsOf(st.best.value) == ls && score(st.best.value) == st.bestFitness.value
                          && st.bestFitness.value in st.history
                          && forall i :: 0 <= i < |st.history| ==> st.history[i] <= st.bestFitness.value)
  }

  lemma {:induction false} RecordConsistent(score: seq<Gene> -> real, ls: seq<Lesson>, st: Outcome, pop: seq<seq<Gene>>)
    requires Consistent(score, ls, st) && |pop| > 0 && Uniform(pop, ls)
    ensures Consistent(score, ls, Record(st, pop, Ranking.Scores(score, pop)))
  {
    var scores := Ranking.Scores(score, pop);
    var top := Ranking.BestIndex(scores, true);
    var r := Record(st, pop, scores);
    assert r.history == st.history + [scores[top]];
  }

  lemma {:induction false} ReplayConsistent(score: seq<Gene> -> real, ls: seq<Lesson>, pops: seq<seq<seq<Gene>>>, st: Outcome)
    requires forall k :: 0 <= k < |pops| ==> |pops[k]| > 0 && Uniform(pops[k], ls)
    requires Consistent(score, ls, st)
    ensures Consistent(score, ls, Replay(score, pops, st))
  {
    if pops != [] {
      RecordConsistent(score, ls, st, pops[0]);
      var st' := Record(st, pops[0], Ranking.Scores(score, pops[0]));
      if !Stops(st'.history) {
        ReplayConsistent(score, ls, pops[1..], st');
      }
    }
  }

  /** A history `before` of bests under 9500 followed by one more entry:
      every entry but the newest is under 9500, and so is the newest unless
      the loop stops there. */
  lemma {:induction false} HistoryStep(before: seq<real>, mid: seq<real>)
    requires |mid| == |before| + 1 && mid[..|before|] == before
    requires forall g :: 0 <= g < |before| ==> before[g] < StopFitness
    ensures forall g :: 0 <= g < |mid| - 1 ==> mid[g] < StopFitness
    ensures !Stops(mid) ==> forall g :: 0 <= g < |mid| ==> mid[g] < StopFitness
  {
    assert forall g :: 0 <= g < |before| ==> mid[g] == before[g];
  }

  /** One generation's bookkeeping adds one entry to the history. */
  lemma RecordExtends(st: Outcome, pop: seq<seq<Gene>>, scores: seq<real>)
    requires |scores| == |pop| > 0
    ensures var h := Record(st, pop, scores).history;
            |h| == |st.history| + 1 && h[..|st.history|] == st.history
  {
    var h := Record(st, pop, scores).history;
    assert h == st.history + [h[|st.history|]];
  }

  /** What the rest of the run after the history `mid` keeps of the
      history `before` it extends by one entry. */
  lemma {:induction false} HistoryRest(before: seq<real>, mid: seq<real>, h: seq<real>, n: nat)
    requires |mid| == |before| + 1 && mid[..|before|] == before
    requires |mid| <= |h| <= |mid| + n && h[..|mid|] == mid
    requires |h| < |mid| + n ==> Stops(h)
    ensures |before| < |h| <= |before| + (n + 1) && h[..|before|] == before
    ensures |h| < |before| + (n + 1) ==> Stops(h)
  {
    assert h[..|before|] == h[..|mid|][..|before|];
  }

  /** The loop makes one history entry per generation, stops early exactly
      at the first generation best of at least 9500, and otherwise runs
      every generation. */
  lemma {:induction false} ReplayRounds(score: seq<Gene> -> real, pops: seq<seq<seq<Gene>>>, st: Outcome)
    requires forall k :: 0 <= k < |pops| ==> |pops[k]| > 0
    requires forall g :: 0 <= g < |st.history| ==> st.history[g] < StopFitness
    ensures var h := Replay(score, pops, st).history;
            |st.history| <= |h| <= |st.history| + |pops| && h[..|st.history|] == st.history
            && (pops != [] ==> |st.history| < |h|)
            && (|h| < |st.history| + |pops| ==> Stops(h))
            && forall g :: 0 <= g < |h| - 1 ==> h[g] < StopFitness
  {
    if pops == [] {
      assert st.history[..|st.history|] == st.history;
    } else {
      var st' := Record(st, pops[0], Ranking.Scores(score, pops[0]));
      RecordExtends(st, pops[0], Ranking.Scores(score, pops[0]));
      HistoryStep(st.history, st'.history);
      if Stops(st'.history) {
        assert Replay(score, pops, st) == st';
        assert st'.history[..|st'.history|] == st'.history;
        HistoryRest(st.history, st'.history, st'.history, |pops| - 1);
      } else {
        assert Replay(score, pops, st) == Replay(score, pops[1..], st');
        ReplayRounds(score, pops[1..], st');
        var h := Replay(score, pops[1..], st').history;
        HistoryRest(st.history, st'.history, h, |pops| - 1);
      }
    }
  }

  predicate Sorted(h: seq<real>)
  {
    forall i, j :: 0 <= i < j < |h| ==> h[i] <= h[j]
  }

  /** The copy of the best carried into the next population makes the
      generation bests non-decreasing. */
  lemma {:induction false} ReplayMonotone(score: seq<Gene> -> real, pops: seq<seq<seq<Gene>>>, st: Outcome)
    requires forall k :: 0 <= k < |pops| ==> |pops[k]| > 0
    requires Elitist(score, pops) && Sorted(st.history)
    requires |st.history| > 0 && pops != [] ==> st.history[|st.history| - 1] <= score(pops[0][0])
    ensures Sorted(Replay(score, pops, st).history)
  {
    if pops != [] {
      var scores := Ranking.Scores(score, pops[0]);
      var top := Ranking.BestIndex(scores, true);
      var st' := Record(st, pops[0], scores);
      assert scores[0] <= scores[top];
      SortedSnoc(st.history, scores[top]);
      if !Stops(st'.history) {
        ElitistTail(score, pops);
        ReplayMonotone(score, pops[1..], st');
      }
    }
  }

  lemma {:induction false} SortedSnoc(h: seq<real>, x: real)
    requires Sorted(h) && (|h| > 0 ==> h[|h| - 1] <= x)
    ensures Sorted(h + [x])
  {
  }

  /** The populations after the first are elitist too, and the second
      starts with a chromosome scoring the first one's best. */
  lemma {:induction false} ElitistTail(score: seq<Gene> -> real, pops: seq<seq<seq<Gene>>>)
    requires |pops| > 0 && Elitist(score, pops) && forall k :: 0 <= k < |pops| ==> |pops[k]| > 0
    ensures Elitist(score, pops[1..])
    ensures |pops| > 1 ==>
              var scores := Ranking.Scores(score, pops[0]);
              score(pops[1][0]) == scores[Ranking.BestIndex(scores, true)]
  {
    forall k | 0 <= k < |pops[1..]| - 1 ensures KeepsBest(score, pops[1..], k) {
      assert KeepsBest(score, pops, k + 1);
      assert pops[1..][k] == pops[k + 1] && pops[1..][k + 1] == pops[k + 2];
    }
    if |pops| > 1 {
      assert KeepsBest(score, pops, 0);
    }
  }

  /** A run's record stays consistent and its generation bests never
      decrease. */
  lemma {:induction false} RunRecord(score: seq<Gene> -> real, ls: seq<Lesson>, pop: seq<seq<Gene>>, draws: seq<seq<PairDraw>>)
    requires Runnable(|ls|, pop, draws, 0) && Uniform(pop, ls) && |draws| > 0
    ensures var r := EvolveFrom(score, |ls|, pop, draws, 0, Unscored);
            Consistent(score, ls, r) && Sorted(r.history) && |r.history| > 0
  {
    var pops := Populations(score, |ls|, pop, draws, 0);
    PopulationsLessons(score, ls, pop, draws, 0);
    PopulationsElitist(score, |ls|, pop, draws, 0);
    ReplayRounds(score, pops, Unscored);
    ReplayConsistent(score, ls, pops, Unscored);
    ReplayMonotone(score, pops, Unscored);
  }

  /** A finished run's report: a best chromosome holding the lessons `ls`,
      scoring the last and largest of the never-decreasing generation
      bests. */
  predicate Reported(score: seq<Gene> -> real, ls: seq<Lesson>, r: Outcome)
  {
    var h := r.history;
    |h| > 0 && Sorted(h)
    && r.best.Some? && r.bestFitness.Some? && LessonsOf(r.best.value) == ls
    && score(r.best.value) == r.bestFitness.value == h[|h| - 1]
  }

  /** A consistent record over non-decreasing generation bests names the
      last generation's best. */
  lemma {:induction false} BestIsLast(score: seq<Gene> -> real, ls: seq<Lesson>, r: Outcome)
    requires Consistent(score, ls, r) && Sorted(r.history) && |r.history| > 0
    ensures Reported(score, ls, r)
  {
    var h := r.history;
    var i :| 0 <= i < |h| && h[i] == r.bestFitness.value;
    assert i < |h| - 1 ==> h[i] <= h[|h| - 1];
  }

  lemma {:induction false} RunBest(score: seq<Gene> -> real, ls: seq<Lesson>, pop: seq<seq<Gene>>, draws: seq<seq<PairDraw>>)
    requires Runnable(|ls|, pop, draws, 0) && Uniform(pop, ls) && |draws| > 0
    ensures Reported(score, ls, EvolveFrom(score, |ls|, pop, draws, 0, Unscored))
  {
    RunRecord(score, ls, pop, draws);
    BestIsLast(score, ls, EvolveFrom(score, |ls|, pop, draws, 0, Unscored));
  }

  /** A run makes between one and `|draws|` history entries, ends early
      only on a generation best of at least 9500, and no earlier
      generation reached it. */
  lemma {:induction false} RunRounds(score: seq<Gene> -> real, len: nat, pop: seq<seq<Gene>>, draws: seq<seq<PairDraw>>)
    requires Runnable(len, pop, draws, 0) && |draws| > 0
    ensures var h := EvolveFrom(score, len, pop, draws, 0, Unscored).history;
            1 <= |h| <= |draws|
            && (|h| < |draws| ==> h[|h| - 1] >= StopFitness)
            && forall g :: 0 <= g < |h| - 1 ==> h[g] < StopFitness
  {
    ReplayRounds(score, Populations(score, len, pop, draws, 0), Unscored);
  }

  /** A chromosome holding the demand teaches only subjects of the table,
      so the evaluation never raises on it. */
  lemma {:induction false} DemandScored(cat: Catalog, c: seq<Gene>)
    requires LessonsOf(c) == Demand(cat)
    ensures Evaluate(cat, c).Some? && FitnessOf(cat)(c) == Evaluate(cat, c).value as real
  {
    DemandLessons(cat.teachers, cat.subjects, FirstRoom(cat));
    forall i | 0 <= i < |c| ensures SubjectIndex(cat.subjects, c[i].subject).Some? {
      assert LessonOf(c[i]) == Demand(cat)[i];
      assert Demand(cat)[i] in Demand(cat);
    }
    FitnessDefined(cat, c);
  }

  /** The initial population holds the demand in every chromosome. */
  lemma {:induction false} InitialRunnable(cat: Catalog, starts: seq<seq<Pick>>, draws: seq<seq<PairDraw>>)
    requires |starts| > 0 && ValidDraws(draws, |starts|, |Demand(cat)|)
    requires forall i :: 0 <= i < |starts| ==> |starts[i]| == |Demand(cat)|
    ensures var pop := InitialPopulation(Demand(cat), starts);
            Runnable(|Demand(cat)|, pop, draws, 0) && Uniform(pop, Demand(cat))
  {
    var pop := InitialPopulation(Demand(cat), starts);
    assert forall i :: 0 <= i < |pop| ==> |pop[i]| == |LessonsOf(pop[i])|;
  }

  /** `executar`'s report: the returned chromosome holds the demanded
      lessons in their initial order, its evaluation does not raise and
      gives the returned fitness, which is the last and largest of the
      never-decreasing generation bests. */
  lemma {:induction false} EvolutionBest(cat: Catalog, starts: seq<seq<Pick>>, draws: seq<seq<PairDraw>>)
    requires |starts| > 0 && ValidDraws(draws, |starts|, |Demand(cat)|)
    requires forall i :: 0 <= i < |starts| ==> |starts[i]| == |Demand(cat)|
    requires HasRoomFor(cat) && |draws| > 0
    ensures Evolution(cat, starts, draws).Some?
    ensures var r := Evolution(cat, starts, draws).value;
            Reported(FitnessOf(cat), Demand(cat), r)
            && Evaluate(cat, r.best.value) == Some(r.history[|r.history| - 1].Floor)
  {
    var ls := Demand(cat);
    InitialRunnable(cat, starts, draws);
    var r := Evolution(cat, starts, draws).value;
    RunBest(FitnessOf(cat), ls, InitialPopulation(ls, starts), draws);
    DemandScored(cat, r.best.value);
  }

  /** `executar`'s run, as `RunRounds` states it. */
  lemma {:induction false} EvolutionRounds(cat: Catalog, starts: seq<seq<Pick>>, draws: seq<seq<PairDraw>>)
    requires |starts| > 0 && ValidDraws(draws, |starts|, |Demand(cat)|)
    requires forall i :: 0 <= i < |starts| ==> |starts[i]| == |Demand(cat)|
    requires HasRoomFor(cat) && |draws| > 0
    ensures Evolution(cat, starts, draws).Some?
    ensures var h := Evolution(cat, starts, draws).value.history;
            1 <= |h| <= |draws|
            && (|h| < |draws| ==> h[|h| - 1] >= StopFitness)
            && forall g :: 0 <= g < |h| - 1 ==> h[g] < StopFitness
  {
    InitialRunnable(cat, starts, draws);
    RunRounds(FitnessOf(cat), |Demand(cat)|, InitialPopulation(Demand(cat), starts), draws);
  }

  // ---------------------------------------------------------------------
  // The run, step by step
  // ---------------------------------------------------------------------

  /** `executar`: `None` where creating the population raises; otherwise
      the outcome `Evolution` computes. */
  method Evolve(cat: Catalog, starts: seq<seq<Pick>>, draws: seq<seq<PairDraw>>) returns (r: Option<Outcome>)
    requires |starts| > 0 && ValidDraws(draws, |starts|, |Demand(cat)|)
    requires forall i :: 0 <= i < |starts| ==> |starts[i]| == |Demand(cat)|
    ensures r == Evolution(cat, starts, draws)
  {
    var pop := InitializePopulation(cat, starts);
    if pop.None? {
      return None;
    }
    InitialRunnable(cat, starts, draws);
    var out := Run(FitnessOf(cat), |Demand(cat)|, pop.value, draws);
    return Some(out);
  }

  /** The generation loop of `executar`. */
  method Run(score: seq<Gene> -> real, ghost len: nat, pop0: seq<seq<Gene>>, draws: seq<seq<PairDraw>>)
    returns (out: Outcome)
    requires Runnable(len, pop0, draws, 0)
    ensures out == EvolveFrom(score, len, pop0, draws, 0, Unscored)
  {
    var pop := pop0;
    var best: Option<seq<Gene>> := None;
    var bestFitness: Option<real> := None;
    var history: seq<real> := [];
    ghost var final := EvolveFrom(score, len, pop0, draws, 0, Unscored);
    var gen := 0;
    while gen < |draws|
      invariant gen <= |draws| && Runnable(len, pop, draws, gen)
      invariant Replay(score, Populations(score, len, pop, draws, gen), Outcome(best, bestFitness, history)) == final
      decreases |draws| - gen
    {
      ghost var st := Outcome(best, bestFitness, history);
      var scores := Ranking.Scores(score, pop);
      var top := Ranking.BestIndex(scores, true);
      best, bestFitness, history := Note(best, bestFitness, history, pop, scores, top);
      if scores[top] >= StopFitness {
        RunStops(score, len, pop, draws, gen, st);
        return Outcome(best, bestFitness, history);
      }
      var next := Breed(pop, scores, len, draws[gen]);
      RunContinues(score, len, pop, draws, gen, st, next);
      pop := next;
      gen := gen + 1;
    }
    return Outcome(best, bestFitness, history);
  }

  /** The bookkeeping of one generation, whose first best is at `top`. */
  method Note(best: Option<seq<Gene>>, bestFitness: Option<real>, history: seq<real>,
              pop: seq<seq<Gene>>, scores: seq<real>, top: nat)
    returns (best': Option<seq<Gene>>, bestFitness': Option<real>, history': seq<real>)
    requires |scores| == |pop| > 0 && top == Ranking.BestIndex(scores, true)
    ensures Outcome(best', bestFitness', history') == Record(Outcome(best, bestFitness, history), pop, scores)
    ensures history' == history + [scores[top]]
  {
    best', bestFitness' := best, bestFitness;
    if bestFitness.None? || scores[top] > bestFitness.value {
      bestFitness' := Some(scores[top]);
      best' := Some(pop[top]);
    }
    history' := history + [scores[top]];
  }

  /** A generation whose best reaches 9500 ends the loop. */
  lemma {:induction false} RunStops(score: seq<Gene> -> real, len: nat, pop: seq<seq<Gene>>, draws: seq<seq<PairDraw>>,
                 gen: nat, st: Outcome)
    requires Runnable(len, pop, draws, gen) && gen < |draws|
    requires Stops(Record(st, pop, Ranking.Scores(score, pop)).history)
    ensures Replay(score, Populations(score, len, pop, draws, gen), st) == Record(st, pop, Ranking.Scores(score, pop))
  {
  }

  /** Otherwise the loop goes on with the bred population. */
  lemma {:induction false} RunContinues(score: seq<Gene> -> real, len: nat, pop: seq<seq<Gene>>, draws: seq<seq<PairDraw>>,
                     gen: nat, st: Outcome, next: seq<seq<Gene>>)
    requires Runnable(len, pop, draws, gen) && gen < |draws|
    requires !Stops(Record(st, pop, Ranking.Scores(score, pop)).history)
    requires next == NextGeneration(pop, Ranking.Scores(score, pop), len, draws[gen])
    ensures Runnable(len, next, draws, gen + 1)
    ensures Replay(score, Populations(score, len, pop, draws, gen), st)
            == Replay(score, Populations(score, len, next, draws, gen + 1), Record(st, pop, Ranking.Scores(score, pop)))
  {
    if gen + 1 < |draws| {
      var n := PopulationsUnfold(score, len, pop, draws, gen);
      assert ([pop] + Populations(score, len, next, draws, gen + 1))[1..] == Populations(score, len, next, draws, gen + 1);
    }
  }

  /** One pass of the refill loop. */
  method BreedPair(pop: seq<seq<Gene>>, scores: seq<real>, ghost len: nat, d: PairDraw)
    returns (f1: seq<Gene>, f2: seq<Gene>)
    requires Shaped(pop, len) && |scores| == |pop| && ValidDraw(d, |pop|, len)
    ensures [f1, f2] == Offspring(pop, scores, len, d)
  {
    var p1 := Tournament(pop, scores, d.sample1);
    var p2 := Tournament(pop, scores, d.sample2);
    var c := Crossover(p1, p2, d.coin, d.cut1, d.cut2);
    f1 := Mutate(c.0, d.genes1);
    f2 := Mutate(c.1, d.genes2);
  }

  /** The next population: a copy of the generation's best, then pairs of
      children until the population size is reached or passed, then the
      cut to that size. */
  method Breed(pop: seq<seq<Gene>>, scores: seq<real>, ghost len: nat, ds: seq<PairDraw>)
    returns (next: seq<seq<Gene>>)
    requires |pop| > 0 && Shaped(pop, len) && |scores| == |pop|
    requires |ds| == PairsNeeded(|pop|) && forall k :: 0 <= k < |ds| ==> ValidDraw(ds[k], |pop|, len)
    ensures next == NextGeneration(pop, scores, len, ds)
  {
    var top := Ranking.BestIndex(scores, true);
    var nova := [pop[top]];
    var k := 0;
    while |nova| < |pop|
      invariant 0 <= k <= |ds| && |nova| == 1 + 2 * k
      invariant nova == [pop[top]] + Children(pop, scores, len, ds[..k])
      decreases |pop| - |nova|
    {
      PairsNeededCovers(|pop|, k);
      var f1, f2 := BreedPair(pop, scores, len, ds[k]);
      ChildrenSnoc(pop, scores, len, ds, k, pop[top], nova, [f1, f2]);
      nova := nova + [f1, f2];
      k := k + 1;
    }
    PairsNeededCovers(|pop|, k);
    assert ds[..k] == ds;
    next := nova[..|pop|];
  }

  /** One pass of the refill loop extends the children by the pair it
      breeds. */
  lemma {:induction false} ChildrenSnoc(pop: seq<seq<Gene>>, scores: seq<real>, len: nat, ds: seq<PairDraw>, k: nat,
                     elite: seq<Gene>, nova: seq<seq<Gene>>, pair: seq<seq<Gene>>)
    requires Shaped(pop, len) && |scores| == |pop| && k < |ds|
    requires forall j :: 0 <= j < |ds| ==> ValidDraw(ds[j], |pop|, len)
    requires nova == [elite] + Children(pop, scores, len, ds[..k])
    requires pair == Offspring(pop, scores, len, ds[k])
    ensures nova + pair == [elite] + Children(pop, scores, len, ds[..k + 1])
  {
    var prev := Children(pop, scores, len, ds[..k]);
    assert ds[..k + 1][..k] == ds[..k] && ds[..k + 1][k] == ds[k];
    assert Children(pop, scores, len, ds[..k + 1]) == prev + pair;
    assert ([elite] + prev) + pair == [elite] + (prev + pair);
  }
}
