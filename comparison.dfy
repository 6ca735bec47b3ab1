/** The two solution summaries of the side-by-side comparison of the
    penalty optimiser (list genome) and the score optimiser (grid genome):
    the share of subjects that reach their weekly load and the share of
    lessons whose teacher is available where they sit. */
module Comparison {
  import opened Wrappers
  import opened Counting
  import opened Records
  import opened GridGenome
  import opened ListGenome
  import opened ListFitness
  import opened GridMetrics
  import GridRepair
  import ConflictReport
  import Week

  /** The `stats` dictionary: `disciplinas_completas` and
      `disponibilidade_respeitada`. */
  datatype Stats = Stats(completed: real, available: real)

  /** `disciplina_count.get(code, 0)` over a chromosome. */
  function ListCount(c: seq<Gene>): string -> nat
  {
    code => Count(SubjectCodes(c), code)
  }

  /** `analisar_solucao_v1`: `None` for the `ZeroDivisionError` of an empty
      subject table; availability is taken over `max(len(c), 1)`. */
  function ListStats(cat: Catalog, c: seq<Gene>): (r: Option<Stats>)
  {
    match CompletionRatio(cat.subjects, ListCount(c))
    case None => None
    case Some(done) => Some(Stats(done, Fraction(|c| - Unavailable(cat.availability, c), Max(|c|, 1))))
  }

  /** The summary of a chromosome exists exactly when there are subjects;
      both shares lie in [0, 1]; completeness is 1 exactly when every
      subject has its load, availability exactly when the chromosome has
      genes and every one of them is available; an empty chromosome
      scores 0 for availability. */
  lemma {:induction false} ListStatsBounds(cat: Catalog, c: seq<Gene>)
    ensures ListStats(cat, c).None? <==> cat.subjects == []
    ensures ListStats(cat, c).Some? ==>
              var s := ListStats(cat, c).value;
              && 0.0 <= s.completed <= 1.0
              && (s.completed == 1.0 <==> Reached(cat.subjects, ListCount(c)))
              && 0.0 <= s.available <= 1.0
              && (s.available == 1.0 <==> c != [] && forall i :: 0 <= i < |c| ==> Available(cat.availability, c[i]))
              && (c == [] ==> s.available == 0.0)
  {
  }

  /** A chromosome as `criar_cromossomo` builds it holds every subject's
      load, so its completeness share is 1 whenever there are subjects. */
  lemma {:induction false} CreatedComplete(cat: Catalog, picks: seq<Pick>)
    requires UniqueSubjectCodes(cat.subjects) && |picks| == |Demand(cat)| && cat.subjects != []
    ensures ListStats(cat, Chromosome(Demand(cat), picks)).value.completed == 1.0
  {
    var c := Chromosome(Demand(cat), picks);
    forall i | 0 <= i < |cat.subjects|
      ensures ListCount(c)(cat.subjects[i].code) >= cat.subjects[i].hours
    {
      ChromosomeCounts(cat, picks, cat.subjects[i].code);
      assert SubjectIndex(cat.subjects, cat.subjects[i].code).value == i;
    }
    assert Reached(cat.subjects, ListCount(c));
    ListStatsBounds(cat, c);
  }

  /** `analisar_solucao_v2`. */
  function GridStats(cat: Catalog, g: seq<Cell>): (r: Option<Stats>)
    requires IsGrid(g)
  {
    match CompletionRatio(cat.subjects, GridCount(g))
    case None => None
    case Some(done) => Some(Stats(done, AvailabilityRatio(cat.availability, g)))
  }

  /** The grid summary is the first two entries of the quality report of
      the same grid, and exists exactly when that report does. */
  lemma {:induction false} GridStatsAgree(cat: Catalog, std: seq<int> -> real, g: seq<Cell>)
    requires IsGrid(g)
    ensures GridStats(cat, g).None? <==> cat.subjects == []
    ensures GridStats(cat, g).Some? ==>
              Quality(cat, std, g).Some?
              && GridStats(cat, g).value.completed == Quality(cat, std, g).value.completeness
              && GridStats(cat, g).value.available == Quality(cat, std, g).value.availability
  {
  }

  /** One more gene in `disciplina_count`. */
  lemma {:induction false} ListCountStep(c: seq<Gene>, i: nat, code: string)
    requires i < |c|
    ensures Count(SubjectCodes(c)[..i + 1], code) == Count(SubjectCodes(c)[..i], code) + (if c[i].subject == code then 1 else 0)
  {
    var codes := SubjectCodes(c);
    assert codes[..i + 1] == codes[..i] + [codes[i]];
    CountAppend(codes[..i], [codes[i]], code);
  }

  /** The `disciplina_count` loop over the genes. */
  method CountGeneSubjects(c: seq<Gene>) returns (counts: map<string, nat>)
    ensures forall code :: GridRepair.Get(counts, code) == ListCount(c)(code)
  {
    counts := map[];
    for i := 0 to |c|
      invariant forall code :: GridRepair.Get(counts, code) == Count(SubjectCodes(c)[..i], code)
    {
      var disc := c[i].subject;
      ghost var before := counts;
      counts := counts[disc := GridRepair.Get(counts, disc) + 1];
      forall code
        ensures GridRepair.Get(counts, code) == Count(SubjectCodes(c)[..i + 1], code)
      {
        ListCountStep(c, i, code);
        assert GridRepair.Get(counts, code) == GridRepair.Get(before, code) + (if disc == code then 1 else 0);
      }
    }
    assert SubjectCodes(c)[..|c|] == SubjectCodes(c);
  }

  /** Unavailable genes among the first `i + 1`. */
  lemma {:induction false} UnavailableStep(av: map<string, seq<Availability>>, c: seq<Gene>, i: nat)
    requires i < |c|
    ensures Unavailable(av, c[..i + 1]) == Unavailable(av, c[..i]) + (if Available(av, c[i]) then 0 else 1)
  {
    ConflictReport.UnavailableAppend(av, c[..i], [c[i]]);
    assert [c[i]][1..] == [];
    assert c[..i] + [c[i]] == c[..i + 1];
  }

  /** The `aulas_com_disponibilidade` loop over the genes. */
  method CountAvailableGenes(av: map<string, seq<Availability>>, c: seq<Gene>) returns (n: nat)
    ensures n == |c| - Unavailable(av, c)
  {
    n := 0;
    for i := 0 to |c|
      invariant n == i - Unavailable(av, c[..i])
    {
      UnavailableStep(av, c, i);
      var available := ConflictReport.TeacherAvailable(av, c[i]);
      if available {
        n := n + 1;
      }
    }
    assert c[..|c|] == c;
  }

  /** `analisar_solucao_v1` as the source runs it. */
  method AnalyseListSolution(cat: Catalog, c: seq<Gene>) returns (r: Option<Stats>)
    ensures r == ListStats(cat, c)
  {
    var counts := CountGeneSubjects(c);
    var completed := CountCompleted(cat.subjects, counts, ListCount(c));
    if |cat.subjects| == 0 {
      return None;
    }
    var done := Fraction(completed, |cat.subjects|);
    var available := CountAvailableGenes(cat.availability, c);
    r := Some(Stats(done, Fraction(available, Max(|c|, 1))));
  }

  /** `analisar_solucao_v2` as the source runs it. */
  method AnalyseGridSolution(cat: Catalog, a: array2<Cell>) returns (r: Option<Stats>)
    requires IsWeek(a)
    ensures r == GridStats(cat, Cells(a))
  {
    var counts := GridRepair.CountSubjects(a);
    var total := CountOccupied(a);
    var completed := CountCompleted(cat.subjects, counts, GridCount(Cells(a)));
    if |cat.subjects| == 0 {
      return None;
    }
    var done := Fraction(completed, |cat.subjects|);
    var available := CountAvailable(cat.availability, a);
    assert Cells(a)[0..] == Cells(a);
    AvailableAtMostOccupied(cat.availability, Cells(a), 0);
    r := Some(Stats(done, Fraction(available, Max(total, 1))));
  }
}
