/** The variation operators of the list optimiser: tournament selection,
    the two-point segment crossover and the per-gene mutation of day or
    slot. The random draws are the caller's: the tournament's sample, the
    crossover coin and cut points, and one `GeneDraw` per gene. */
module ListVariation {
  import opened Counting
  import opened ListGenome
  import Ranking
  import Week

  const TournamentSize: nat := 3
  const CrossoverRate: real := 0.8
  const MutationRate: real := 0.1

  /** `selecao_torneio`: a copy of the sampled individual with the top
      score, the first such one in sample order. */
  function Tournament(pop: seq<seq<Gene>>, scores: seq<real>, sample: seq<nat>): (r: seq<Gene>)
    requires |scores| == |pop| && Ranking.IsSample(sample, |pop|, TournamentSize)
    ensures exists p :: 0 <= p < |sample| && r == pop[sample[p]]
              && (forall j :: 0 <= j < |sample| ==> scores[sample[j]] <= scores[sample[p]])
              && forall j :: 0 <= j < p ==> scores[sample[j]] < scores[sample[p]]
  {
    pop[Ranking.Winner(scores, sample)]
  }

  // ---------------------------------------------------------------------
  // Crossover
  // ---------------------------------------------------------------------

  /** `l[a:b]` with Python's clipping of the bounds to the list. */
  function Slice<T>(l: seq<T>, a: nat, b: nat): (r: seq<T>)
    requires a <= b
    ensures |r| == Min(b, |l|) - Min(a, |l|)
    ensures forall i :: 0 <= i < |r| ==> r[i] == l[Min(a, |l|) + i]
  {
    l[Min(a, |l|)..Min(b, |l|)]
  }

  /** `l[a:b] = r`: the clipped segment of `l` replaced by `r`. */
  function SpliceIn<T>(l: seq<T>, a: nat, b: nat, r: seq<T>): (s: seq<T>)
    requires a <= b
    ensures |s| == |l| - (Min(b, |l|) - Min(a, |l|)) + |r|
    ensures var lo, hi := Min(a, |l|), Min(b, |l|);
            s[..lo] == l[..lo] && s[lo..lo + |r|] == r && s[lo + |r|..] == l[hi..]
  {
    l[..Min(a, |l|)] + r + l[Min(b, |l|)..]
  }

  /** The cut points are the ones `crossover` draws for the first parent:
      `p1 = randint(0, n // 2)`, `p2 = randint(p1, n)`. */
  predicate ValidCuts(n: nat, cut1: nat, cut2: nat)
  {
    cut1 <= n / 2 && cut1 <= cut2 <= n
  }

  /** `crossover`: copies of the parents when the coin exceeds the rate,
      otherwise each child is its own parent with the segment between the
      cuts taken from the other parent. The children have as many genes
      together as the parents; for parents of equal length each child
      keeps the length, and at every position the two children hold the
      two parents' genes, in place outside the segment and exchanged
      inside it. */
  function Crossover<T>(p1: seq<T>, p2: seq<T>, coin: real, cut1: nat, cut2: nat): (r: (seq<T>, seq<T>))
    requires coin <= CrossoverRate ==> ValidCuts(|p1|, cut1, cut2)
    ensures coin > CrossoverRate ==> r == (p1, p2)
    ensures |r.0| + |r.1| == |p1| + |p2|
    ensures |p1| == |p2| ==>
              |r.0| == |p1| && |r.1| == |p1|
              && forall i :: 0 <= i < |p1| ==>
                   if coin <= CrossoverRate && cut1 <= i < cut2
                   then r.0[i] == p2[i] && r.1[i] == p1[i]
                   else r.0[i] == p1[i] && r.1[i] == p2[i]
  {
    if coin > CrossoverRate then (p1, p2)
    else (SpliceIn(p1, cut1, cut2, Slice(p2, cut1, cut2)), SpliceIn(p2, cut1, cut2, Slice(p1, cut1, cut2)))
  }

  /** Crossover between parents holding the same lessons gives children
      holding those lessons. */
  lemma {:induction false} CrossoverKeepsLessons(p1: seq<Gene>, p2: seq<Gene>, coin: real, cut1: nat, cut2: nat)
    requires LessonsOf(p1) == LessonsOf(p2) && (coin <= CrossoverRate ==> ValidCuts(|p1|, cut1, cut2))
    ensures var r := Crossover(p1, p2, coin, cut1, cut2);
            LessonsOf(r.0) == LessonsOf(p1) && LessonsOf(r.1) == LessonsOf(p1)
  {
    var r := Crossover(p1, p2, coin, cut1, cut2);
    assert forall i :: 0 <= i < |p1| ==> LessonOf(p1[i]) == LessonsOf(p1)[i] == LessonsOf(p2)[i] == LessonOf(p2[i]);
    assert LessonsOf(r.0) == LessonsOf(p1);
    assert LessonsOf(r.1) == LessonsOf(p1);
  }

  // ---------------------------------------------------------------------
  // Mutation
  // ---------------------------------------------------------------------

  /** One gene's draws: the mutation coin, the day-or-slot coin and the
      new day or slot. */
  datatype GeneDraw = GeneDraw(coin: real, changeDay: bool, value: int)

  predicate ValidGeneDraw(d: GeneDraw)
  {
    if d.changeDay then Week.IsDay(d.value) else Week.IsSlot(d.value)
  }

  predicate ValidGeneDraws(ds: seq<GeneDraw>, n: nat)
  {
    |ds| == n && forall i :: 0 <= i < |ds| ==> ValidGeneDraw(ds[i])
  }

  function MutateGene(g: Gene, d: GeneDraw): Gene
    requires ValidGeneDraw(d)
  {
    if d.coin >= MutationRate then g
    else if d.changeDay then g.(day := d.value)
    else g.(slot := d.value)
  }

  /** The chromosome `mutacao` returns: every gene whose coin falls below
      the rate has its day or its slot redrawn; nothing else changes. */
  function Mutated(c: seq<Gene>, ds: seq<GeneDraw>): (r: seq<Gene>)
    requires ValidGeneDraws(ds, |c|)
    ensures LessonsOf(r) == LessonsOf(c)
    ensures forall i :: 0 <= i < |c| ==>
              (ds[i].coin >= MutationRate ==> r[i] == c[i])
              && (r[i].day == c[i].day || r[i].slot == c[i].slot)
    ensures forall i :: 0 <= i < |c| && ds[i].coin < MutationRate ==>
              if ds[i].changeDay then r[i].day == ds[i].value && r[i].slot == c[i].slot
              else r[i].slot == ds[i].value && r[i].day == c[i].day
  {
    var r := seq(|c|, i requires 0 <= i < |c| => MutateGene(c[i], ds[i]));
    assert LessonsOf(r) == LessonsOf(c);
    r
  }

  /** `mutacao`: walks a copy of the chromosome gene by gene. */
  method Mutate(c: seq<Gene>, ds: seq<GeneDraw>) returns (m: seq<Gene>)
    requires ValidGeneDraws(ds, |c|)
    ensures m == Mutated(c, ds)
  {
    m := c;
    var i := 0;
    while i < |m|
      invariant 0 <= i <= |m| == |c|
      invariant forall j :: 0 <= j < i ==> m[j] == MutateGene(c[j], ds[j])
      invariant forall j :: i <= j < |m| ==> m[j] == c[j]
    {
      var g := m[i];
      if ds[i].coin < MutationRate {
        if ds[i].changeDay {
          g := g.(day := ds[i].value);
        } else {
          g := g.(slot := ds[i].value);
        }
      }
      m := m[i := g];
      i := i + 1;
    }
  }
}
