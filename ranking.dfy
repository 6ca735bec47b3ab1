/** Python's `max`/`min` with a key and its stable `sorted`, over a list of
    fitness scores. Scores are indexed by population position; `maximize`
    says whether a larger score is better (the grid and list optimisers) or
    a smaller one (the rule-based optimiser). */
module Ranking {
  import opened Counting

  /** The fitness list of a population, `[fitness(ind) for ind in
      populacao]`, kept by the grid and the list optimisers. */
  function Scores<T>(score: T -> real, pop: seq<T>): (r: seq<real>)
    ensures |r| == |pop|
  {
    seq(|pop|, i requires 0 <= i < |pop| => score(pop[i]))
  }

  predicate Better(a: real, b: real, maximize: bool)
  {
    if maximize then a > b else a < b
  }

  predicate ValidIndices(scores: seq<real>, cands: seq<nat>)
  {
    forall j :: 0 <= j < |cands| ==> cands[j] < |scores|
  }

  /** Position, within `cands`, of the candidate that `max(cands, key=...)`
      (or `min`) returns: a best one, and the first of the best ones. */
  function ArgBest(scores: seq<real>, cands: seq<nat>, maximize: bool): (p: nat)
    requires |cands| > 0 && ValidIndices(scores, cands)
    ensures p < |cands|
    ensures forall j :: 0 <= j < |cands| ==> !Better(scores[cands[j]], scores[cands[p]], maximize)
    ensures forall j :: 0 <= j < p ==> Better(scores[cands[p]], scores[cands[j]], maximize)
    decreases |cands|
  {
    if |cands| == 1 then 0
    else
      var q := ArgBest(scores, cands[..|cands| - 1], maximize);
      var last := |cands| - 1;
      if Better(scores[cands[last]], scores[cands[q]], maximize) then last else q
  }

  /** The positions 0, 1, ..., n - 1. */
  function Range(n: nat): (r: seq<nat>)
    ensures |r| == n && forall i :: 0 <= i < n ==> r[i] == i
  {
    if n == 0 then [] else Range(n - 1) + [n - 1]
  }

  /** `scores.index(max(scores))`: the first position holding a best score. */
  function BestIndex(scores: seq<real>, maximize: bool): (i: nat)
    requires |scores| > 0
    ensures i < |scores|
    ensures forall j :: 0 <= j < |scores| ==> !Better(scores[j], scores[i], maximize)
    ensures forall j :: 0 <= j < i ==> Better(scores[i], scores[j], maximize)
  {
    var r := Range(|scores|);
    var p := ArgBest(scores, r, maximize);
    forall j | 0 <= j < |scores| ensures !Better(scores[j], scores[p], maximize) {
      assert r[j] == j;
    }
    forall j | 0 <= j < p ensures Better(scores[p], scores[j], maximize) {
      assert r[j] == j;
    }
    r[p]
  }

  predicate StrictlyIncreasing(s: seq<nat>)
  {
    forall i, j :: 0 <= i < j < |s| ==> s[i] < s[j]
  }

  /** `a` comes before `b` in a stable sort best-first: better score, or the
      same score and an earlier position. */
  predicate Precedes(scores: seq<real>, a: nat, b: nat, maximize: bool)
    requires a < |scores| && b < |scores|
  {
    Better(scores[a], scores[b], maximize) || (scores[a] == scores[b] && a < b)
  }

  function RemoveAt(s: seq<nat>, p: nat): (r: seq<nat>)
    requires p < |s|
    ensures |r| == |s| - 1
    ensures forall j :: 0 <= j < |r| ==> r[j] == if j < p then s[j] else s[j + 1]
  {
    s[..p] + s[p + 1..]
  }

  lemma {:induction false} RemoveAtMultiset(s: seq<nat>, p: nat)
    requires p < |s|
    ensures multiset(RemoveAt(s, p)) + multiset{s[p]} == multiset(s)
  {
    assert s == s[..p] + [s[p]] + s[p + 1..];
  }

  /** Stable best-first ordering of `cands`: `sorted(cands, key=score)`, with
      `reverse=True` when maximizing. Built by repeatedly taking the first
      best remaining candidate. */
  function Rank(scores: seq<real>, cands: seq<nat>, maximize: bool): (r: seq<nat>)
    requires ValidIndices(scores, cands)
    ensures |r| == |cands|
    decreases |cands|
  {
    if cands == [] then []
    else
      var p := ArgBest(scores, cands, maximize);
      [cands[p]] + Rank(scores, RemoveAt(cands, p), maximize)
  }

  lemma {:induction false} RankPermutes(scores: seq<real>, cands: seq<nat>, maximize: bool)
    requires ValidIndices(scores, cands)
    ensures multiset(Rank(scores, cands, maximize)) == multiset(cands)
    decreases |cands|
  {
    if cands != [] {
      var p := ArgBest(scores, cands, maximize);
      RemoveAtMultiset(cands, p);
      RankPermutes(scores, RemoveAt(cands, p), maximize);
    }
  }

  /** Every ranked candidate is a valid score position. */
  lemma {:induction false} RankValid(scores: seq<real>, cands: seq<nat>, maximize: bool)
    requires ValidIndices(scores, cands)
    ensures ValidIndices(scores, Rank(scores, cands, maximize))
  {
    var r := Rank(scores, cands, maximize);
    RankPermutes(scores, cands, maximize);
    forall i | 0 <= i < |r| ensures r[i] < |scores| {
      assert r[i] in multiset(cands);
    }
  }

  lemma {:induction false} RemoveAtIncreasing(s: seq<nat>, p: nat)
    requires p < |s| && StrictlyIncreasing(s)
    ensures StrictlyIncreasing(RemoveAt(s, p))
  {
  }

  /** The candidate Rank puts first precedes every other one. */
  lemma {:induction false} HeadPrecedesRest(scores: seq<real>, cands: seq<nat>, maximize: bool)
    requires |cands| > 0 && ValidIndices(scores, cands) && StrictlyIncreasing(cands)
    ensures var p := ArgBest(scores, cands, maximize);
            forall x :: x in multiset(RemoveAt(cands, p)) ==> x < |scores| && Precedes(scores, cands[p], x, maximize)
  {
    var p := ArgBest(scores, cands, maximize);
    var rest := RemoveAt(cands, p);
    forall x | x in multiset(rest) ensures x < |scores| && Precedes(scores, cands[p], x, maximize) {
      var q :| 0 <= q < |rest| && rest[q] == x;
      var q' := if q < p then q else q + 1;
      assert rest[q] == cands[q'];
    }
  }

  predicate Ordered(scores: seq<real>, r: seq<nat>, maximize: bool)
  {
    ValidIndices(scores, r) && forall i, j :: 0 <= i < j < |r| ==> Precedes(scores, r[i], r[j], maximize)
  }

  lemma {:induction false} ConsOrdered(scores: seq<real>, h: nat, t: seq<nat>, maximize: bool)
    requires h < |scores| && Ordered(scores, t, maximize)
    requires forall x :: x in multiset(t) ==> Precedes(scores, h, x, maximize)
    ensures Ordered(scores, [h] + t, maximize)
  {
    var r := [h] + t;
    forall i, j | 0 <= i < j < |r| ensures Precedes(scores, r[i], r[j], maximize) {
      assert r[j] == t[j - 1] && t[j - 1] in multiset(t);
      if i > 0 {
        assert r[i] == t[i - 1];
      }
    }
  }

  /** The ranking is ordered best-first, ties in ascending position. */
  lemma {:induction false} RankOrdered(scores: seq<real>, cands: seq<nat>, maximize: bool)
    requires ValidIndices(scores, cands) && StrictlyIncreasing(cands)
    ensures Ordered(scores, Rank(scores, cands, maximize), maximize)
    decreases |cands|
  {
    if cands != [] {
      var p := ArgBest(scores, cands, maximize);
      var rest := RemoveAt(cands, p);
      RemoveAtIncreasing(cands, p);
      RankOrdered(scores, rest, maximize);
      RankPermutes(scores, rest, maximize);
      HeadPrecedesRest(scores, cands, maximize);
      ConsOrdered(scores, cands[p], Rank(scores, rest, maximize), maximize);
    }
  }

  /** The first `k` of the ranking are at least as good as every other
      candidate: the elitism guarantee. */
  lemma {:induction false} TopIsBest(scores: seq<real>, n: nat, k: nat, maximize: bool)
    requires n == |scores| && k <= n
    ensures var r := Rank(scores, Range(n), maximize);
            multiset(r) == multiset(Range(n)) && ValidIndices(scores, r)
            && forall i, j :: 0 <= i < k <= j < n ==> !Better(scores[r[j]], scores[r[i]], maximize)
  {
    RankPermutes(scores, Range(n), maximize);
    RankOrdered(scores, Range(n), maximize);
  }

  /** A `random.sample(range(n), k)` result: `k` distinct indices below `n`. */
  predicate IsSample(sample: seq<nat>, n: nat, k: nat)
  {
    |sample| == k && NoDuplicates(sample) && forall j :: 0 <= j < |sample| ==> sample[j] < n
  }

  /** `max(indices, key=lambda i: fitness_scores[i])`: a sampled index with
      the top score, the first such one in sample order. */
  function Winner(scores: seq<real>, sample: seq<nat>): (w: nat)
    requires |sample| > 0 && ValidIndices(scores, sample)
    ensures w in sample && w < |scores|
    ensures forall j :: 0 <= j < |sample| ==> scores[sample[j]] <= scores[w]
    ensures exists p :: 0 <= p < |sample| && sample[p] == w && forall j :: 0 <= j < p ==> scores[sample[j]] < scores[w]
  {
    var p := ArgBest(scores, sample, true);
    sample[p]
  }

  /** `min(indices, key=lambda i: fitness_populacao[i])`: a sampled index
      with the lowest score, the first such one in sample order. */
  function Lowest(scores: seq<real>, sample: seq<nat>): (w: nat)
    requires |sample| > 0 && ValidIndices(scores, sample)
    ensures w in sample && w < |scores|
    ensures forall j :: 0 <= j < |sample| ==> scores[w] <= scores[sample[j]]
    ensures exists p :: 0 <= p < |sample| && sample[p] == w && forall j :: 0 <= j < p ==> scores[w] < scores[sample[j]]
  {
    var p := ArgBest(scores, sample, false);
    sample[p]
  }
}
