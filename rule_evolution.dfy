/** The generational loop of the rule-based optimiser (`evoluir`, with
    `criar_populacao_inicial`, `selecao_torneio`, `crossover` and
    `mutacao`). Fitness is `calcular_fitness` and is minimised. Each
    generation records its first lowest score, stops on a score of 0, keeps
    the lowest-scoring sixth-and-a-bit of the population (`int(n * 0.15)`)
    and refills the rest with pairs bred by tournament, splice crossover
    and mutation of one lesson's day. Every random draw is a parameter. */
module RuleEvolution {
  import opened Wrappers
  import opened Counting
  import opened RuleData
  import opened RuleBuild
  import opened RuleFitness
  import opened RuleAlloc
  import Ranking
  import Week

  const PopulationSize: nat := 40
  const Generations: nat := 150
  const TournamentSize: nat := 3
  const CrossoverRate: real := 0.8
  const MutationRate: real := 0.2

  // ---------------------------------------------------------------------
  // The initial population
  // ---------------------------------------------------------------------

  /** `criar_populacao_inicial`: forty individuals, each built by
      `criar_individuo_otimizado`, which draws nothing, so all forty are
      the same timetable; `None` where building raises. */
  function InitialPopulation(t: Tables): (r: Option<seq<seq<Booking>>>)
    ensures r.None? <==> Individual(t).None?
    ensures r.Some? ==> |r.value| == PopulationSize && forall i :: 0 <= i < |r.value| ==> r.value[i] == Individual(t).value
  {
    match Individual(t)
    case None => None
    case Some(ind) => Some(Repeat(ind, PopulationSize))
  }

  method CreatePopulation(t: Tables) returns (r: Option<seq<seq<Booking>>>)
    ensures r == InitialPopulation(t)
  {
    var pop: seq<seq<Booking>> := [];
    for i := 0 to PopulationSize
      invariant i > 0 ==> Individual(t).Some?
      invariant Individual(t).Some? ==> pop == Repeat(Individual(t).value, i)
    {
      var ind := CreateIndividual(t);
      if ind.None? {
        return None;
      }
      RepeatSnoc(ind.value, i);
      pop := pop + [ind.value];
    }
    return Some(pop);
  }

  lemma {:induction false} RepeatSnoc<T>(x: T, n: nat)
    ensures Repeat(x, n) + [x] == Repeat(x, n + 1)
  {
    assert forall i :: 0 <= i < n + 1 ==> (Repeat(x, n) + [x])[i] == Repeat(x, n + 1)[i];
  }

  /** 1 when day `d` holds a lesson of `ind`. */
  function Used(ind: seq<Booking>, d: Week.DayIndex): nat
  {
    if SlotsOn(ind, d) != [] then 1 else 0
  }

  /** The days of the week holding some lesson of `ind`. */
  function UsedDays(ind: seq<Booking>): nat
  {
    Used(ind, 0) + Used(ind, 1) + Used(ind, 2) + Used(ind, 3) + Used(ind, 4)
  }

  /** A day that is empty or holds one block from 18:50 has no gap and
      earns the 18:50 credit when used. */
  lemma {:induction false} ShapedDay(ind: seq<Booking>, d: Week.DayIndex)
    requires DayShape(SlotsOn(ind, d), d)
    ensures DayTerms(SlotsOn(ind, d)) == -100 * Used(ind, d)
  {
    BlockDayTerms(SlotsOn(ind, d));
  }

  lemma {:induction false} ShapedDayTerms(ind: seq<Booking>)
    requires forall d: Week.DayIndex :: DayShape(SlotsOn(ind, d), d)
    ensures StartAndGapTerms(ind) == -100 * UsedDays(ind)
  {
    ShapedDay(ind, 0);
    ShapedDay(ind, 1);
    ShapedDay(ind, 2);
    ShapedDay(ind, 3);
    ShapedDay(ind, 4);
  }

  /** The scores of an individual without clashes whose every day is
      empty or one block from 18:50, as every individual built by
      `criar_individuo_otimizado` is (`IndividualShape`): `fitness`
      charges it no clash, and `calcular_fitness` charges no shared slot
      and no gap and credits the 18:50 start of every day it uses. */
  lemma {:induction false} ShapedScore(t: Tables, ind: seq<Booking>)
    requires NoClash(ind) && forall d: Week.DayIndex :: DayShape(SlotsOn(ind, d), d)
    ensures Penalty(t, ind) == UnavailableCost * Unavailable(t.availability, ind) + FridayCost * Fridays(ind)
                               + MissingCost * Missing(t.courses, ind)
    ensures SlotShare(ind) == 0
    ensures StartAndGapTerms(ind) == -100 * UsedDays(ind)
    ensures Score(t, ind) == if ind == [] then EmptyScore
                             else Max(0, LoadTerms(ind) - 100 * UsedDays(ind) + RuleTerms(t.courses, ind) - LessonCredit * |ind|)
  {
    PenaltyWithoutClash(t, ind);
    SlotShareCounts(ind);
    ShapedDayTerms(ind);
    ScoreWithoutSharing(t, ind);
  }

  lemma {:induction false} ScoreWithoutSharing(t: Tables, ind: seq<Booking>)
    requires SlotShare(ind) == 0 && StartAndGapTerms(ind) == -100 * UsedDays(ind)
    ensures Score(t, ind) == if ind == [] then EmptyScore
                             else Max(0, LoadTerms(ind) - 100 * UsedDays(ind) + RuleTerms(t.courses, ind) - LessonCredit * |ind|)
  {
    RawWithoutSharing(t, ind);
  }

  lemma RawWithoutSharing(t: Tables, ind: seq<Booking>)
    requires SlotShare(ind) == 0 && StartAndGapTerms(ind) == -100 * UsedDays(ind)
    ensures RawScore(t, ind) == LoadTerms(ind) - 100 * UsedDays(ind) + RuleTerms(t.courses, ind) - LessonCredit * |ind|
  {
  }

  // ---------------------------------------------------------------------
  // Scores
  // ---------------------------------------------------------------------

  /** `[self.calcular_fitness(ind) for ind in populacao]`. */
  function Scores(t: Tables, pop: seq<seq<Booking>>): (r: seq<real>)
    ensures |r| == |pop|
  {
    seq(|pop|, i requires 0 <= i < |pop| => Score(t, pop[i]) as real)
  }

  /** Every individual has `len` lessons. */
  predicate Shaped(pop: seq<seq<Booking>>, len: nat)
  {
    forall i :: 0 <= i < |pop| ==> |pop[i]| == len
  }

  // ---------------------------------------------------------------------
  // Tournament selection
  // ---------------------------------------------------------------------

  /** The sample size of one tournament: `min(k, len(populacao))`. */
  function SampleSize(n: nat): (k: nat)
    ensures k <= n && k <= TournamentSize && (n > 0 ==> k > 0)
  {
    Min(TournamentSize, n)
  }

  /** One `random.sample(range(len(populacao)), min(k, len(populacao)))`
      per pick. */
  predicate ValidSamples(samples: seq<seq<nat>>, n: nat)
  {
    |samples| == n && forall i :: 0 <= i < |samples| ==> Ranking.IsSample(samples[i], n, SampleSize(n))
  }

  /** One tournament: the sampled individual with the lowest score, the
      first such one in sample order. */
  function Pick(pop: seq<seq<Booking>>, scores: seq<real>, sample: seq<nat>): (r: seq<Booking>)
    requires |scores| == |pop| && |sample| > 0 && Ranking.ValidIndices(scores, sample)
    ensures exists p :: 0 <= p < |sample| && r == pop[sample[p]]
              && (forall j :: 0 <= j < |sample| ==> scores[sample[p]] <= scores[sample[j]])
              && forall j :: 0 <= j < p ==> scores[sample[p]] < scores[sample[j]]
  {
    pop[Ranking.Lowest(scores, sample)]
  }

  /** `selecao_torneio`: as many tournament winners as the population has
      individuals, the `i`-th from the `i`-th sample. */
  function Selection(pop: seq<seq<Booking>>, scores: seq<real>, samples: seq<seq<nat>>): (r: seq<seq<Booking>>)
    requires |scores| == |pop| && ValidSamples(samples, |pop|)
    ensures |r| == |pop|
  {
    seq(|pop|, i requires 0 <= i < |pop| => Pick(pop, scores, samples[i]))
  }

  /** Tournament winners of a population of `len`-lesson individuals have
      `len` lessons. */
  lemma {:induction false} SelectionShaped(pop: seq<seq<Booking>>, scores: seq<real>, samples: seq<seq<nat>>, len: nat)
    requires |scores| == |pop| && ValidSamples(samples, |pop|) && Shaped(pop, len)
    ensures Shaped(Selection(pop, scores, samples), len)
  {
    var r := Selection(pop, scores, samples);
    forall i | 0 <= i < |r| ensures |r[i]| == len {
      var p :| 0 <= p < |samples[i]| && r[i] == pop[samples[i][p]];
    }
  }

  /** The loop of `selecao_torneio`. */
  method Select(pop: seq<seq<Booking>>, scores: seq<real>, samples: seq<seq<nat>>) returns (r: seq<seq<Booking>>)
    requires |scores| == |pop| && ValidSamples(samples, |pop|)
    ensures r == Selection(pop, scores, samples)
  {
    r := [];
    for i := 0 to |pop|
      invariant r == Selection(pop, scores, samples)[..i]
    {
      var w := Ranking.Lowest(scores, samples[i]);
      r := r + [pop[w]];
    }
  }

  // ---------------------------------------------------------------------
  // Crossover
  // ---------------------------------------------------------------------

  /** `crossover`: copies of the parents when the coin exceeds the rate or
      either parent is empty; otherwise, with the cut at half the first
      parent, each child is its own parent's front and the other parent's
      back, Python's slices clipped to the list. The children have as many
      lessons together as the parents. */
  function Crossover(p1: seq<Booking>, p2: seq<Booking>, coin: real): (r: (seq<Booking>, seq<Booking>))
    ensures coin > CrossoverRate || p1 == [] || p2 == [] ==> r == (p1, p2)
    ensures |r.0| + |r.1| == |p1| + |p2|
  {
    if coin > CrossoverRate || p1 == [] || p2 == [] then (p1, p2)
    else
      var cut := |p1| / 2;
      var c2 := Min(cut, |p2|);
      (p1[..cut] + p2[c2..], p2[..c2] + p1[cut..])
  }

  /** The children hold the parents' lessons between them. */
  lemma {:induction false} CrossoverKeepsLessons(p1: seq<Booking>, p2: seq<Booking>, coin: real)
    ensures var r := Crossover(p1, p2, coin);
            multiset(r.0) + multiset(r.1) == multiset(p1) + multiset(p2)
  {
    if !(coin > CrossoverRate || p1 == [] || p2 == []) {
      var cut := |p1| / 2;
      var c2 := Min(cut, |p2|);
      assert p1 == p1[..cut] + p1[cut..] && p2 == p2[..c2] + p2[c2..];
    }
  }

  /** For parents of equal length each child keeps the length, with its
      own parent's lessons before the cut and the other parent's from the
      cut on when the crossover fires. */
  lemma {:induction false} CrossoverPositions(p1: seq<Booking>, p2: seq<Booking>, coin: real)
    requires |p1| == |p2|
    ensures var r := Crossover(p1, p2, coin);
            |r.0| == |p1| && |r.1| == |p1|
            && forall i :: 0 <= i < |p1| ==>
                 if coin <= CrossoverRate && i >= |p1| / 2
                 then r.0[i] == p2[i] && r.1[i] == p1[i]
                 else r.0[i] == p1[i] && r.1[i] == p2[i]
  {
  }

  // ---------------------------------------------------------------------
  // Mutation
  // ---------------------------------------------------------------------

  /** The draws of one `mutacao`: the coin, the position of the lesson and
      its new day. */
  datatype Tweak = Tweak(coin: real, index: nat, day: Week.DayIndex)

  /** `random.randint(0, len(individuo) - 1)` is drawn only when the coin
      fires on a non-empty individual. */
  predicate ValidTweak(w: Tweak, len: nat)
  {
    w.coin <= MutationRate && len > 0 ==> w.index < len
  }

  /** `mutacao`: unchanged when the coin exceeds the rate or there are no
      lessons; otherwise the drawn lesson moves to the drawn day. Only that
      lesson's day can change, and the length is kept. */
  function Mutated(ind: seq<Booking>, w: Tweak): (r: seq<Booking>)
    requires ValidTweak(w, |ind|)
    ensures |r| == |ind|
    ensures forall i :: 0 <= i < |ind| ==> r[i].(day := ind[i].day) == ind[i]
    ensures forall i :: 0 <= i < |ind| && r[i] != ind[i] ==> i == w.index && w.coin <= MutationRate
    ensures w.coin <= MutationRate && ind != [] ==> r[w.index].day == w.day
  {
    if w.coin > MutationRate || ind == [] then ind
    else ind[w.index := ind[w.index].(day := w.day)]
  }

  // ---------------------------------------------------------------------
  // One generation, on values
  // ---------------------------------------------------------------------

  /** The draws of one pass of the refill loop: the samples of the
      `selecao_torneio` call, the two distinct positions
      `random.sample(pais, 2)` takes, the crossover coin and the mutation
      draws of both children. */
  datatype PairDraw = PairDraw(samples: seq<seq<nat>>, first: nat, second: nat, coin: real,
                               tweak1: Tweak, tweak2: Tweak)

  predicate ValidDraw(d: PairDraw, n: nat, len: nat)
  {
    ValidSamples(d.samples, n) && d.first < n && d.second < n && d.first != d.second
    && ValidTweak(d.tweak1, len) && ValidTweak(d.tweak2, len)
  }

  /** One pass of the refill loop: a round of tournaments, two of its
      winners as parents, their crossover and the mutation of both
      children. */
  function Offspring(pop: seq<seq<Booking>>, scores: seq<real>, len: nat, d: PairDraw): (r: seq<seq<Booking>>)
    requires Shaped(pop, len) && |scores| == |pop| && ValidDraw(d, |pop|, len)
    ensures |r| == 2 && Shaped(r, len)
  {
    var sel := Selection(pop, scores, d.samples);
    SelectionShaped(pop, scores, d.samples, len);
    CrossoverPositions(sel[d.first], sel[d.second], d.coin);
    var c := Crossover(sel[d.first], sel[d.second], d.coin);
    [Mutated(c.0, d.tweak1), Mutated(c.1, d.tweak2)]
  }

  /** The children bred from the given pair draws, in order. */
  function Children(pop: seq<seq<Booking>>, scores: seq<real>, len: nat, ds: seq<PairDraw>): (r: seq<seq<Booking>>)
    requires Shaped(pop, len) && |scores| == |pop|
    requires forall k :: 0 <= k < |ds| ==> ValidDraw(ds[k], |pop|, len)
    ensures |r| == 2 * |ds| && Shaped(r, len)
  {
    if ds == [] then []
    else Children(pop, scores, len, ds[..|ds| - 1]) + Offspring(pop, scores, len, ds[|ds| - 1])
  }

  /** `int(len(populacao) * self.taxa_elitismo)` with the rate 0.15. */
  function EliteCount(n: nat): (e: nat)
    ensures e <= n && (n >= 7 ==> e > 0)
  {
    (3 * n) / 20
  }

  /** `sorted(range(len(populacao)), key=lambda i: fitness_populacao[i])`:
      the positions, lowest score first, ties in position order. */
  function Order(scores: seq<real>): (r: seq<nat>)
    ensures |r| == |scores| && Ranking.ValidIndices(scores, r)
  {
    Ranking.RankValid(scores, Ranking.Range(|scores|), false);
    Ranking.Rank(scores, Ranking.Range(|scores|), false)
  }

  /** The elite: copies of the first `EliteCount` individuals of the
      order. */
  function Elite(pop: seq<seq<Booking>>, scores: seq<real>): (r: seq<seq<Booking>>)
    requires |scores| == |pop|
    ensures |r| == EliteCount(|pop|)
  {
    var o := Order(scores);
    seq(EliteCount(|pop|), i requires 0 <= i < EliteCount(|pop|) => pop[o[i]])
  }

  lemma {:induction false} EliteShaped(pop: seq<seq<Booking>>, scores: seq<real>, len: nat)
    requires |scores| == |pop| && Shaped(pop, len)
    ensures Shaped(Elite(pop, scores), len)
  {
    var r := Elite(pop, scores);
    forall i | 0 <= i < |r| ensures |r[i]| == len {
      assert r[i] == pop[Order(scores)[i]];
    }
  }

  /** The passes of the refill loop, which adds two children a pass until
      the population size is reached. */
  function PairsNeeded(n: nat): nat
  {
    (n - EliteCount(n) + 1) / 2
  }

  /** The refill loop runs exactly while it is short of the size. */
  lemma {:induction false} PairsNeededCovers(n: nat, k: nat)
    ensures k < PairsNeeded(n) <==> EliteCount(n) + 2 * k < n
  {
  }

  /** The next population: the elite, then the children, cut to the
      population size. */
  function NextGeneration(pop: seq<seq<Booking>>, scores: seq<real>, len: nat, ds: seq<PairDraw>): (r: seq<seq<Booking>>)
    requires Shaped(pop, len) && |scores| == |pop|
    requires |ds| == PairsNeeded(|pop|) && forall k :: 0 <= k < |ds| ==> ValidDraw(ds[k], |pop|, len)
    ensures |r| == |pop| && Shaped(r, len)
    ensures r[..EliteCount(|pop|)] == Elite(pop, scores)
  {
    EliteShaped(pop, scores, len);
    var all := Elite(pop, scores) + Children(pop, scores, len, ds);
    assert Shaped(all, len);
    assert all[..|pop|][..EliteCount(|pop|)] == Elite(pop, scores);
    Filled(Elite(pop, scores), Children(pop, scores, len, ds), |pop|)
  }

  /** The order holds every position. */
  lemma {:induction false} OrderCovers(scores: seq<real>, x: nat)
    requires x < |scores|
    ensures x in Order(scores)
  {
    var n := |scores|;
    Ranking.RankPermutes(scores, Ranking.Range(n), false);
    assert Ranking.Range(n)[x] == x;
    assert x in multiset(Ranking.Range(n));
  }

  /** The elite scores no more than any individual left out of it. */
  lemma {:induction false} EliteLowest(pop: seq<seq<Booking>>, scores: seq<real>)
    requires |scores| == |pop|
    ensures var o := Order(scores);
            var k := EliteCount(|pop|);
            forall i, x :: 0 <= i < k && 0 <= x < |pop| && x !in o[..k] ==> scores[o[i]] <= scores[x]
  {
    var n := |pop|;
    var o := Order(scores);
    var k := EliteCount(n);
    Ranking.TopIsBest(scores, n, k, false);
    forall i, x | 0 <= i < k && 0 <= x < n && x !in o[..k] ensures scores[o[i]] <= scores[x] {
      OrderCovers(scores, x);
      var j :| 0 <= j < n && o[j] == x;
    }
  }

  /** The first of the order has the generation's lowest score. */
  lemma {:induction false} OrderFirstLowest(scores: seq<real>)
    requires |scores| > 0
    ensures scores[Order(scores)[0]] == scores[Ranking.BestIndex(scores, false)]
  {
    var n := |scores|;
    var o := Order(scores);
    Ranking.TopIsBest(scores, n, 1, false);
    var b := Ranking.BestIndex(scores, false);
    OrderCovers(scores, b);
    var j :| 0 <= j < n && o[j] == b;
    assert j != 0 ==> scores[o[0]] <= scores[o[j]];
  }

  /** With an elite, the next population starts with a copy of an
      individual scoring the generation's lowest. */
  lemma {:induction false} NextStartsLowest(pop: seq<seq<Booking>>, scores: seq<real>, len: nat, ds: seq<PairDraw>)
    requires Shaped(pop, len) && |scores| == |pop| && EliteCount(|pop|) > 0
    requires |ds| == PairsNeeded(|pop|) && forall k :: 0 <= k < |ds| ==> ValidDraw(ds[k], |pop|, len)
    ensures var r := NextGeneration(pop, scores, len, ds);
            r[0] == pop[Order(scores)[0]] && scores[Order(scores)[0]] == scores[Ranking.BestIndex(scores, false)]
  {
    var r := NextGeneration(pop, scores, len, ds);
    assert r[0] == r[..EliteCount(|pop|)][0];
    OrderFirstLowest(scores);
  }

  // ---------------------------------------------------------------------
  // The run, on values
  // ---------------------------------------------------------------------

  predicate ValidDraws(draws: seq<seq<PairDraw>>, n: nat, len: nat)
  {
    forall g :: 0 <= g < |draws| ==>
      |draws[g]| == PairsNeeded(n) && forall k :: 0 <= k < |draws[g]| ==> ValidDraw(draws[g][k], n, len)
  }

  /** What the run from generation `gen` needs of its population and draws. */
  predicate Runnable(len: nat, pop: seq<seq<Booking>>, draws: seq<seq<PairDraw>>, gen: nat)
  {
    |pop| > 0 && Shaped(pop, len) && ValidDraws(draws, |pop|, len) && gen <= |draws|
  }

  /** The population of each generation from `gen` on, were the run never
      stopped: each one bred from the one before with that generation's
      draws. Each has the size of the first and its individuals `len`
      lessons. */
  function Populations(t: Tables, len: nat, pop: seq<seq<Booking>>, draws: seq<seq<PairDraw>>, gen: nat)
    : (r: seq<seq<seq<Booking>>>)
    requires Runnable(len, pop, draws, gen)
    ensures |r| == |draws| - gen && (|r| > 0 ==> r[0] == pop)
    ensures forall k :: 0 <= k < |r| ==> |r[k]| == |pop| && Shaped(r[k], len)
    ensures Bred(t, len, r, draws, gen)
    decreases |draws| - gen
  {
    if gen + 1 >= |draws| then (if gen == |draws| then [] else [pop])
    else
      var next := NextGeneration(pop, Scores(t, pop), len, draws[gen]);
      var rest := Populations(t, len, next, draws, gen + 1);
      BredCons(t, len, pop, rest, draws, gen);
      [pop] + rest
  }

  lemma {:induction false} BredCons(t: Tables, len: nat, pop: seq<seq<Booking>>, rest: seq<seq<seq<Booking>>>,
                 draws: seq<seq<PairDraw>>, gen: nat)
    requires Runnable(len, pop, draws, gen) && gen + 1 < |draws|
    requires |rest| > 0 && rest[0] == NextGeneration(pop, Scores(t, pop), len, draws[gen])
    requires Bred(t, len, rest, draws, gen + 1)
    requires forall k :: 0 <= k < |rest| ==> |rest[k]| == |pop| && Shaped(rest[k], len)
    ensures Bred(t, len, [pop] + rest, draws, gen)
    ensures forall k :: 0 <= k < |rest| + 1 ==> |([pop] + rest)[k]| == |pop| && Shaped(([pop] + rest)[k], len)
  {
    var pops := [pop] + rest;
    forall k | 0 <= k < |pops| - 1 ensures BredAt(t, len, pops, draws, gen, k) {
      if k > 0 {
        BredShift(t, len, pop, rest, draws, gen, k);
      }
    }
    forall k | 0 <= k < |rest| + 1 ensures |pops[k]| == |pop| && Shaped(pops[k], len) {
      if k > 0 {
        assert pops[k] == rest[k - 1];
      }
    }
  }

  lemma {:induction false} BredShift(t: Tables, len: nat, pop: seq<seq<Booking>>, rest: seq<seq<seq<Booking>>>,
                  draws: seq<seq<PairDraw>>, gen: nat, k: nat)
    requires 0 < k < |rest| && Bred(t, len, rest, draws, gen + 1)
    ensures BredAt(t, len, [pop] + rest, draws, gen, k)
  {
    assert BredAt(t, len, rest, draws, gen + 1, k - 1);
    ShiftAt((a, b, g) => BredFrom(t, len, a, b, draws, g), pop, rest, gen, k);
  }

  /** A relation between neighbours of `rest` holds between the same
      neighbours once `pop` is put in front. */
  lemma {:induction false} ShiftAt<T>(P: (T, T, nat) -> bool, pop: T, rest: seq<T>, gen: nat, k: nat)
    requires 0 < k < |rest| && P(rest[k - 1], rest[k], gen + k)
    ensures P(([pop] + rest)[k], ([pop] + rest)[k + 1], gen + k)
  {
    assert ([pop] + rest)[k] == rest[k - 1] && ([pop] + rest)[k + 1] == rest[k];
  }

  /** Each population but the first is bred from the one before, with the
      draws of that one's generation. */
  predicate Bred(t: Tables, len: nat, pops: seq<seq<seq<Booking>>>, draws: seq<seq<PairDraw>>, gen: nat)
  {
    forall k :: 0 <= k < |pops| - 1 ==> BredAt(t, len, pops, draws, gen, k)
  }

  predicate BredAt(t: Tables, len: nat, pops: seq<seq<seq<Booking>>>, draws: seq<seq<PairDraw>>, gen: nat, k: nat)
    requires k + 1 < |pops|
  {
    BredFrom(t, len, pops[k], pops[k + 1], draws, gen + k)
  }

  /** `next` is bred from `pop` with the draws of generation `gen`. */
  predicate BredFrom(t: Tables, len: nat, pop: seq<seq<Booking>>, next: seq<seq<Booking>>,
                     draws: seq<seq<PairDraw>>, gen: nat)
  {
    Runnable(len, pop, draws, gen) && gen < |draws|
    && next == NextGeneration(pop, Scores(t, pop), len, draws[gen])
  }

  /** The populations from generation `gen` on: this one, then those bred
      from the next. */
  lemma {:induction false} PopulationsUnfold(t: Tables, len: nat, pop: seq<seq<Booking>>, draws: seq<seq<PairDraw>>, gen: nat)
    returns (next: seq<seq<Booking>>)
    requires Runnable(len, pop, draws, gen) && gen + 1 < |draws|
    ensures next == NextGeneration(pop, Scores(t, pop), len, draws[gen])
    ensures Runnable(len, next, draws, gen + 1)
    ensures Populations(t, len, pop, draws, gen) == [pop] + Populations(t, len, next, draws, gen + 1)
  {
    next := NextGeneration(pop, Scores(t, pop), len, draws[gen]);
  }

  /** The lowest score of a generation: `min(fitness_populacao)`. */
  function Lowest(t: Tables, pop: seq<seq<Booking>>): (v: nat)
    requires |pop| > 0
    ensures exists i :: 0 <= i < |pop| && Score(t, pop[i]) == v
    ensures forall i :: 0 <= i < |pop| ==> v <= Score(t, pop[i])
  {
    var scores := Scores(t, pop);
    var top := Ranking.BestIndex(scores, false);
    var v := Score(t, pop[top]);
    assert scores[top] == v as real;
    assert forall i :: 0 <= i < |pop| ==> v <= Score(t, pop[i]) by {
      forall i | 0 <= i < |pop| ensures v <= Score(t, pop[i]) {
        assert scores[i] == Score(t, pop[i]) as real;
        assert !Ranking.Better(scores[i], scores[top], false);
      }
    }
    v
  }

  /** Each population after the first starts with a copy of an individual
      of the one before that scores its lowest. */
  predicate Elitist(t: Tables, pops: seq<seq<seq<Booking>>>)
  {
    forall k :: 0 <= k < |pops| - 1 ==> KeepsLowest(t, pops, k)
  }

  predicate KeepsLowest(t: Tables, pops: seq<seq<seq<Booking>>>, k: nat)
    requires k + 1 < |pops|
  {
    |pops[k]| > 0 && |pops[k + 1]| > 0 && Score(t, pops[k + 1][0]) == Lowest(t, pops[k])
  }

  lemma {:induction false} PopulationsElitist(t: Tables, len: nat, pop: seq<seq<Booking>>, draws: seq<seq<PairDraw>>, gen: nat)
    requires Runnable(len, pop, draws, gen) && EliteCount(|pop|) > 0
    ensures Elitist(t, Populations(t, len, pop, draws, gen))
  {
    var r := Populations(t, len, pop, draws, gen);
    forall k | 0 <= k < |r| - 1 ensures KeepsLowest(t, r, k) {
      assert BredAt(t, len, r, draws, gen, k);
      var scores := Scores(t, r[k]);
      NextStartsLowest(r[k], scores, len, draws[gen + k]);
    }
  }

  /** What `evoluir` leaves in `melhor_solucao`, `melhor_fitness` and
      `historico_fitness`; `None` stands for the starting best of
      infinity. */
  datatype Outcome = Outcome(best: Option<seq<Booking>>, bestFitness: Option<nat>, history: seq<nat>)

  const Unscored: Outcome := Outcome(None, None, [])

  /** A generation's bookkeeping: its lowest score is appended to the
      history, and its first individual with that score replaces the best
      when the score is strictly lower (always, against infinity). */
  function Record(st: Outcome, t: Tables, pop: seq<seq<Booking>>): Outcome
    requires |pop| > 0
  {
    var top := Ranking.BestIndex(Scores(t, pop), false);
    var v := Score(t, pop[top]);
    var improved := st.bestFitness.None? || v < st.bestFitness.value;
    Outcome(if improved then Some(pop[top]) else st.best,
            if improved then Some(v) else st.bestFitness,
            st.history + [v])
  }

  /** The record gains the generation's lowest score; the best fitness
      is then set and never goes up, and the best changes only on a
      strict decrease. */
  lemma {:induction false} RecordImproves(st: Outcome, t: Tables, pop: seq<seq<Booking>>)
    requires |pop| > 0
    ensures var r := Record(st, t, pop);
            r.history == st.history + [Lowest(t, pop)] && r.bestFitness.Some?
            && (st.bestFitness.Some? ==> r.bestFitness.value <= st.bestFitness.value)
            && r.bestFitness.value <= Lowest(t, pop)
            && (r.best != st.best || r.bestFitness != st.bestFitness ==>
                  st.bestFitness.None? || r.bestFitness.value < st.bestFitness.value)
  {
  }

  /** The stop test on the newest generation's lowest score. */
  predicate Stops(h: seq<nat>)
  {
    |h| > 0 && h[|h| - 1] == 0
  }

  /** The generation loop over the given populations: each one is scored
      and recorded, and the loop ends after the first whose lowest score
      is 0 or after the last. */
  function Replay(t: Tables, pops: seq<seq<seq<Booking>>>, st: Outcome): Outcome
    requires forall k :: 0 <= k < |pops| ==> |pops[k]| > 0
  {
    if pops == [] then st
    else
      var st' := Record(st, t, pops[0]);
      if Stops(st'.history) then st' else Replay(t, pops[1..], st')
  }

  function EvolveFrom(t: Tables, len: nat, pop: seq<seq<Booking>>, draws: seq<seq<PairDraw>>, gen: nat,
                      st: Outcome): Outcome
    requires Runnable(len, pop, draws, gen)
  {
    Replay(t, Populations(t, len, pop, draws, gen), st)
  }

  /** The length of the individuals `criar_individuo_otimizado` builds. */
  function BuiltLength(t: Tables): nat
  {
    match Individual(t) case None => 0 case Some(ind) => |ind|
  }

  /** `evoluir` from the record `st`: `None` where building the population
      raises. */
  function Evolution(t: Tables, draws: seq<seq<PairDraw>>, st: Outcome): Option<Outcome>
    requires ValidDraws(draws, PopulationSize, BuiltLength(t))
  {
    match InitialPopulation(t)
    case None => None
    case Some(pop) => Some(EvolveFrom(t, BuiltLength(t), pop, draws, 0, st))
  }

  // ---------------------------------------------------------------------
  // Properties of the run
  // ---------------------------------------------------------------------

  /** The record names a best individual of `len` lessons exactly once some
      generation is recorded; its fitness is the best individual's score,
      an entry of the history and no greater than any entry. */
  predicate Consistent(t: Tables, len: nat, st: Outcome)
  {
    (st.best.None? <==> st.bestFitness.None?)
    && (st.best.None? <==> st.history == [])
    && (st.best.Some? ==> |st.best.value| == len && Score(t, st.best.value) == st.bestFitness.value
                          && st.bestFitness.value in st.history
                          && forall i :: 0 <= i < |st.history| ==> st.bestFitness.value <= st.history[i])
  }

  lemma {:induction false} RecordConsistent(t: Tables, len: nat, st: Outcome, pop: seq<seq<Booking>>)
    requires Consistent(t, len, st) && |pop| > 0 && Shaped(pop, len)
    ensures Consistent(t, len, Record(st, t, pop))
  {
    var top := Ranking.BestIndex(Scores(t, pop), false);
    var r := Record(st, t, pop);
    assert r.history == st.history + [Score(t, pop[top])];
    assert r.history[|st.history|] == Score(t, pop[top]);
  }

  lemma {:induction false} ReplayConsistent(t: Tables, len: nat, pops: seq<seq<seq<Booking>>>, st: Outcome)
    requires forall k :: 0 <= k < |pops| ==> |pops[k]| > 0 && Shaped(pops[k], len)
    requires Consistent(t, len, st)
    ensures Consistent(t, len, Replay(t, pops, st))
  {
    if pops != [] {
      RecordConsistent(t, len, st, pops[0]);
      var st' := Record(st, t, pops[0]);
      if !Stops(st'.history) {
        ReplayConsistent(t, len, pops[1..], st');
      }
    }
  }

  /** The loop makes one history entry per generation, stops early exactly
      at the first generation whose lowest score is 0, and otherwise runs
      every generation. */
  lemma {:induction false} ReplayRounds(t: Tables, pops: seq<seq<seq<Booking>>>, st: Outcome)
    requires forall k :: 0 <= k < |pops| ==> |pops[k]| > 0
    requires forall g :: 0 <= g < |st.history| ==> st.history[g] != 0
    ensures var h := Replay(t, pops, st).history;
            |st.history| <= |h| <= |st.history| + |pops| && h[..|st.history|] == st.history
            && (pops != [] ==> |st.history| < |h|)
            && (|h| < |st.history| + |pops| ==> Stops(h))
            && forall g :: 0 <= g < |h| - 1 ==> h[g] != 0
  {
    if pops != [] {
      var st' := Record(st, t, pops[0]);
      assert st'.history[..|st.history|] == st.history;
      if !Stops(st'.history) {
        ReplayRounds(t, pops[1..], st');
        var h := Replay(t, pops[1..], st').history;
        assert h[..|st'.history|] == st'.history;
        assert h[..|st.history|] == st.history;
      }
    }
  }

  predicate Descending(h: seq<nat>)
  {
    forall i, j :: 0 <= i < j < |h| ==> h[i] >= h[j]
  }

  /** The elite carried into the next population keeps the generations'
      lowest scores from going up. */
  lemma {:induction false} ReplayMonotone(t: Tables, pops: seq<seq<seq<Booking>>>, st: Outcome)
    requires forall k :: 0 <= k < |pops| ==> |pops[k]| > 0
    requires Elitist(t, pops) && Descending(st.history)
    requires |st.history| > 0 && pops != [] ==> Score(t, pops[0][0]) <= st.history[|st.history| - 1]
    ensures Descending(Replay(t, pops, st).history)
  {
    if pops != [] {
      var st' := Record(st, t, pops[0]);
      MonotoneStep(t, pops, st);
      if !Stops(st'.history) {
        assert forall k :: 0 <= k < |pops[1..]| ==> pops[1..][k] == pops[k + 1];
        ReplayMonotone(t, pops[1..], st');
      }
    }
  }

  /** One recorded generation keeps the lowest scores non-increasing and
      hands on populations that are still elitist. */
  lemma {:induction false} MonotoneStep(t: Tables, pops: seq<seq<seq<Booking>>>, st: Outcome)
    requires pops != [] && forall k :: 0 <= k < |pops| ==> |pops[k]| > 0
    requires Elitist(t, pops) && Descending(st.history)
    requires |st.history| > 0 ==> Score(t, pops[0][0]) <= st.history[|st.history| - 1]
    ensures var h := Record(st, t, pops[0]).history;
            Descending(h) && Elitist(t, pops[1..])
            && (|pops| > 1 ==> Score(t, pops[1][0]) <= h[|h| - 1])
  {
    var st' := Record(st, t, pops[0]);
    RecordImproves(st, t, pops[0]);
    var v := Lowest(t, pops[0]);
    assert v <= Score(t, pops[0][0]);
    assert Descending(st'.history) by {
      assert st'.history == st.history + [v];
    }
    ElitistTail(t, pops);
  }

  /** The populations after the first are elitist too, and the second
      starts with an individual scoring the first one's lowest. */
  lemma {:induction false} ElitistTail(t: Tables, pops: seq<seq<seq<Booking>>>)
    requires |pops| > 0 && Elitist(t, pops) && forall k :: 0 <= k < |pops| ==> |pops[k]| > 0
    ensures Elitist(t, pops[1..])
    ensures |pops| > 1 ==> Score(t, pops[1][0]) == Lowest(t, pops[0])
  {
    forall k | 0 <= k < |pops[1..]| - 1 ensures KeepsLowest(t, pops[1..], k) {
      assert KeepsLowest(t, pops, k + 1);
      assert pops[1..][k] == pops[k + 1] && pops[1..][k + 1] == pops[k + 2];
    }
    if |pops| > 1 {
      assert KeepsLowest(t, pops, 0);
    }
  }

  /** A run from the empty record, with an elite, stays consistent and
      its generations' lowest scores never go up. */
  lemma {:induction false} RunRecord(t: Tables, len: nat, pop: seq<seq<Booking>>, draws: seq<seq<PairDraw>>)
    requires Runnable(len, pop, draws, 0) && EliteCount(|pop|) > 0 && |draws| > 0
    ensures var r := EvolveFrom(t, len, pop, draws, 0, Unscored);
            Consistent(t, len, r) && Descending(r.history) && |r.history| > 0
  {
    var pops := Populations(t, len, pop, draws, 0);
    PopulationsElitist(t, len, pop, draws, 0);
    ReplayRounds(t, pops, Unscored);
    ReplayConsistent(t, len, pops, Unscored);
    ReplayMonotone(t, pops, Unscored);
  }

  /** A finished run's report: a best individual of `len` lessons, scoring
      the last and lowest of the never-increasing generation lows. */
  predicate Reported(t: Tables, len: nat, r: Outcome)
  {
    var h := r.history;
    |h| > 0 && Descending(h)
    && r.best.Some? && r.bestFitness.Some? && |r.best.value| == len
    && Score(t, r.best.value) == r.bestFitness.value == h[|h| - 1]
  }

  /** A consistent record over never-increasing lows names the last
      generation's low. */
  lemma {:induction false} BestIsLast(t: Tables, len: nat, r: Outcome)
    requires Consistent(t, len, r) && Descending(r.history) && |r.history| > 0
    ensures Reported(t, len, r)
  {
    var h := r.history;
    var i :| 0 <= i < |h| && h[i] == r.bestFitness.value;
    assert i < |h| - 1 ==> h[i] >= h[|h| - 1];
  }

  /** A run makes between one and `|draws|` history entries, ends early
      only on a generation low of 0, and no earlier generation reached 0. */
  lemma {:induction false} RunRounds(t: Tables, len: nat, pop: seq<seq<Booking>>, draws: seq<seq<PairDraw>>, st: Outcome)
    requires Runnable(len, pop, draws, 0) && |draws| > 0
    requires forall g :: 0 <= g < |st.history| ==> st.history[g] != 0
    ensures var h := EvolveFrom(t, len, pop, draws, 0, st).history;
            |st.history| + 1 <= |h| <= |st.history| + |draws| && h[..|st.history|] == st.history
            && (|h| < |st.history| + |draws| ==> Stops(h))
            && forall g :: 0 <= g < |h| - 1 ==> h[g] != 0
  {
    var pops := Populations(t, len, pop, draws, 0);
    assert |pops| == |draws|;
    ReplayRounds(t, pops, st);
  }

  /** The initial population is ready to run. */
  lemma {:induction false} InitialRunnable(t: Tables, draws: seq<seq<PairDraw>>)
    requires Individual(t).Some? && ValidDraws(draws, PopulationSize, BuiltLength(t))
    ensures InitialPopulation(t).Some? && Runnable(BuiltLength(t), InitialPopulation(t).value, draws, 0)
  {
  }

  /** `evoluir` on a fresh optimiser: where the individual can be built,
      the run reports a best timetable of the built length scoring the
      last and lowest of the never-increasing generation lows, makes at
      most one history entry per generation and stops early only on a
      score of 0. */
  lemma {:induction false} EvolutionBest(t: Tables, draws: seq<seq<PairDraw>>)
    requires ValidDraws(draws, PopulationSize, BuiltLength(t)) && |draws| > 0
    ensures Evolution(t, draws, Unscored).None? <==> Individual(t).None?
    ensures Evolution(t, draws, Unscored).Some? ==>
              var r := Evolution(t, draws, Unscored).value;
              Reported(t, BuiltLength(t), r)
              && |r.history| <= |draws| && (|r.history| < |draws| ==> Stops(r.history))
              && forall g :: 0 <= g < |r.history| - 1 ==> r.history[g] != 0
  {
    if Individual(t).Some? {
      InitialRunnable(t, draws);
      var pop := InitialPopulation(t).value;
      RunRecord(t, BuiltLength(t), pop, draws);
      RunRounds(t, BuiltLength(t), pop, draws, Unscored);
      BestIsLast(t, BuiltLength(t), EvolveFrom(t, BuiltLength(t), pop, draws, 0, Unscored));
    }
  }

  // ---------------------------------------------------------------------
  // The run, step by step
  // ---------------------------------------------------------------------

  /** One pass of the refill loop. */
  method BreedPair(pop: seq<seq<Booking>>, scores: seq<real>, ghost len: nat, d: PairDraw)
    returns (f1: seq<Booking>, f2: seq<Booking>)
    requires Shaped(pop, len) && |scores| == |pop| && ValidDraw(d, |pop|, len)
    ensures [f1, f2] == Offspring(pop, scores, len, d)
  {
    var pais := Select(pop, scores, d.samples);
    SelectionShaped(pop, scores, d.samples, len);
    CrossoverPositions(pais[d.first], pais[d.second], d.coin);
    var c := Crossover(pais[d.first], pais[d.second], d.coin);
    f1 := Mutated(c.0, d.tweak1);
    f2 := Mutated(c.1, d.tweak2);
  }

  /** The children of one more pass extend those before it. */
  lemma {:induction false} ChildrenSnoc(pop: seq<seq<Booking>>, scores: seq<real>, len: nat, ds: seq<PairDraw>, k: nat,
                     pair: seq<seq<Booking>>)
    requires Shaped(pop, len) && |scores| == |pop| && k < |ds|
    requires forall j :: 0 <= j < |ds| ==> ValidDraw(ds[j], |pop|, len)
    requires pair == Offspring(pop, scores, len, ds[k])
    ensures Children(pop, scores, len, ds[..k + 1]) == Children(pop, scores, len, ds[..k]) + pair
  {
    assert ds[..k + 1][..k] == ds[..k];
  }

  /** The elite loop of `evoluir`. */
  method CopyElite(pop: seq<seq<Booking>>, scores: seq<real>) returns (nova: seq<seq<Booking>>)
    requires |scores| == |pop|
    ensures nova == Elite(pop, scores)
  {
    var order := Order(scores);
    nova := [];
    for i := 0 to (3 * |pop|) / 20
      invariant nova == Elite(pop, scores)[..i]
    {
      nova := nova + [pop[order[i]]];
    }
  }

  /** What the refill loop holds once `children` are bred: the elite and
      the children, cut to the size `n`. */
  function Filled<T>(elite: seq<T>, children: seq<T>, n: nat): (r: seq<T>)
    ensures |r| == Min(n, |elite| + |children|)
  {
    (elite + children)[..Min(n, |elite| + |children|)]
  }

  /** One pass of the refill loop: each child is added while the population
      is short. */
  method AddPair(nova: seq<seq<Booking>>, f1: seq<Booking>, f2: seq<Booking>, n: nat)
    returns (r: seq<seq<Booking>>)
    requires |nova| < n
    ensures r == (nova + [f1, f2])[..Min(n, |nova| + 2)]
  {
    r := nova + [f1];
    if |r| < n {
      r := r + [f2];
    }
  }

  /** A pass of the refill loop adds its pair, cut to the size. */
  lemma {:induction false} FilledSnoc<T>(elite: seq<T>, children: seq<T>, pair: seq<T>, n: nat)
    requires |elite| + |children| < n
    ensures |Filled(elite, children, n)| < n
    ensures Filled(elite, children + pair, n)
            == (Filled(elite, children, n) + pair)[..Min(n, |Filled(elite, children, n)| + |pair|)]
  {
    var all := elite + children;
    assert all[..|all|] == all;
    assert elite + (children + pair) == all + pair;
  }

  /** The new population of `evoluir`: the elite, then the pairs of the
      refill loop. */
  method Breed(pop: seq<seq<Booking>>, scores: seq<real>, ghost len: nat, ds: seq<PairDraw>)
    returns (nova: seq<seq<Booking>>)
    requires Shaped(pop, len) && |scores| == |pop|
    requires |ds| == PairsNeeded(|pop|) && forall k :: 0 <= k < |ds| ==> ValidDraw(ds[k], |pop|, len)
    ensures nova == NextGeneration(pop, scores, len, ds)
  {
    var elite := CopyElite(pop, scores);
    nova := Refill(pop, scores, len, ds, elite);
  }

  /** The refill loop of `evoluir`: pairs are bred while the population is
      short, each child added while it still is. */
  method Refill(pop: seq<seq<Booking>>, scores: seq<real>, ghost len: nat, ds: seq<PairDraw>,
                elite: seq<seq<Booking>>)
    returns (nova: seq<seq<Booking>>)
    requires Shaped(pop, len) && |scores| == |pop| && |elite| == EliteCount(|pop|)
    requires |ds| == PairsNeeded(|pop|) && forall k :: 0 <= k < |ds| ==> ValidDraw(ds[k], |pop|, len)
    ensures nova == Filled(elite, Children(pop, scores, len, ds), |pop|)
  {
    var n := |pop|;
    nova := elite;
    assert ds[..0] == [] && elite + [] == elite;
    var k := 0;
    ghost var kids: seq<seq<Booking>> := [];
    while |nova| < n
      invariant 0 <= k <= |ds| && |kids| == 2 * k
      invariant kids == Children(pop, scores, len, ds[..k])
      invariant nova == Filled(elite, kids, n)
      decreases n - |nova|
    {
      PairsNeededCovers(n, k);
      var f1, f2 := BreedPair(pop, scores, len, ds[k]);
      ChildrenSnoc(pop, scores, len, ds, k, [f1, f2]);
      FilledSnoc(elite, kids, [f1, f2], n);
      nova := AddPair(nova, f1, f2, n);
      kids := kids + [f1, f2];
      k := k + 1;
    }
    PairsNeededCovers(n, k);
    assert ds[..k] == ds;
  }

  /** `evoluir`'s optimiser: the tables it was loaded with and the record
      the runs leave, `melhor_solucao`, `melhor_fitness` (`None` for the
      starting infinity) and `historico_fitness`. */
  class Optimiser {
    const tables: Tables
    var best: Option<seq<Booking>>
    var bestFitness: Option<nat>
    var history: seq<nat>

    constructor (t: Tables)
      ensures tables == t && best.None? && bestFitness.None? && history == []
    {
      tables := t;
      best := None;
      bestFitness := None;
      history := [];
    }

    function Current(): Outcome
      reads this
    {
      Outcome(best, bestFitness, history)
    }

    /** A generation's bookkeeping; `low` is its lowest score. */
    method Note(pop: seq<seq<Booking>>, scores: seq<real>) returns (low: nat)
      requires |pop| > 0 && scores == Scores(tables, pop)
      modifies this
      ensures Current() == Record(old(Current()), tables, pop) && low == Lowest(tables, pop)
    {
      var top := Ranking.BestIndex(scores, false);
      low := Score(tables, pop[top]);
      history := history + [low];
      if bestFitness.None? || low < bestFitness.value {
        bestFitness := Some(low);
        best := Some(pop[top]);
      }
    }

    /** `evoluir` over 150 generations from the current record: `None`
        where building the population raises, which leaves the record as
        it was; otherwise the new record and its best timetable. */
    method Evolve(draws: seq<seq<PairDraw>>) returns (r: Option<Option<seq<Booking>>>)
      requires |draws| == Generations && ValidDraws(draws, PopulationSize, BuiltLength(tables))
      modifies this
      ensures match Evolution(tables, draws, old(Current()))
              case None => r.None? && Current() == old(Current())
              case Some(o) => r == Some(o.best) && Current() == o
    {
      var start := CreatePopulation(tables);
      if start.None? {
        return None;
      }
      InitialRunnable(tables, draws);
      Run(start.value, draws, BuiltLength(tables));
      return Some(best);
    }

    /** The generation loop of `evoluir` from population `pop`. */
    method Run(pop: seq<seq<Booking>>, draws: seq<seq<PairDraw>>, ghost len: nat)
      requires Runnable(len, pop, draws, 0)
      modifies this
      ensures Current() == EvolveFrom(tables, len, pop, draws, 0, old(Current()))
    {
      ghost var final := EvolveFrom(tables, len, pop, draws, 0, Current());
      var p := pop;
      var gen := 0;
      while gen < |draws|
        invariant gen <= |draws| && Runnable(len, p, draws, gen)
        invariant Replay(tables, Populations(tables, len, p, draws, gen), Current()) == final
        decreases |draws| - gen
      {
        var stop, next := Generation(p, draws, gen, len);
        if stop {
          return;
        }
        p := next;
        gen := gen + 1;
      }
    }

    /** One generation of `evoluir`: the bookkeeping, the stop test and,
        when the run goes on, the bred population. */
    method Generation(pop: seq<seq<Booking>>, draws: seq<seq<PairDraw>>, gen: nat, ghost len: nat)
      returns (stop: bool, next: seq<seq<Booking>>)
      requires Runnable(len, pop, draws, gen) && gen < |draws|
      modifies this
      ensures stop ==> Current() == Replay(tables, Populations(tables, len, pop, draws, gen), old(Current()))
      ensures !stop ==> (Runnable(len, next, draws, gen + 1)
                         && Replay(tables, Populations(tables, len, next, draws, gen + 1), Current())
                            == Replay(tables, Populations(tables, len, pop, draws, gen), old(Current())))
    {
      ghost var st := Current();
      var scores := Scores(tables, pop);
      var low := Note(pop, scores);
      stop := low == 0;
      if stop {
        RunStops(tables, len, pop, draws, gen, st);
        next := pop;
      } else {
        next := Breed(pop, scores, len, draws[gen]);
        RunContinues(tables, len, pop, draws, gen, st, next);
      }
    }
  }

  /** A generation whose lowest score is 0 ends the loop. */
  lemma {:induction false} RunStops(t: Tables, len: nat, pop: seq<seq<Booking>>, draws: seq<seq<PairDraw>>, gen: nat, st: Outcome)
    requires Runnable(len, pop, draws, gen) && gen < |draws|
    requires Stops(Record(st, t, pop).history)
    ensures Replay(t, Populations(t, len, pop, draws, gen), st) == Record(st, t, pop)
  {
  }

  /** Otherwise the loop goes on with the bred population. */
  lemma {:induction false} RunContinues(t: Tables, len: nat, pop: seq<seq<Booking>>, draws: seq<seq<PairDraw>>, gen: nat,
                     st: Outcome, next: seq<seq<Booking>>)
    requires Runnable(len, pop, draws, gen) && gen < |draws|
    requires !Stops(Record(st, t, pop).history)
    requires next == NextGeneration(pop, Scores(t, pop), len, draws[gen])
    ensures Runnable(len, next, draws, gen + 1)
    ensures Replay(t, Populations(t, len, pop, draws, gen), st)
            == Replay(t, Populations(t, len, next, draws, gen + 1), Record(st, t, pop))
  {
    if gen + 1 < |draws| {
      var n := PopulationsUnfold(t, len, pop, draws, gen);
      assert ([pop] + Populations(t, len, next, draws, gen + 1))[1..] == Populations(t, len, next, draws, gen + 1);
    }
  }
}
