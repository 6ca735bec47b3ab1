/** `avaliar_fitness` of the list optimiser: 10000, less 1000 for every
    gene whose (teacher, day, slot) key met an earlier gene and 1000 for
    every repeated (room, day, slot) key, less 500 for every gene whose
    teacher has no record of that day and slot, less 100 for every lesson
    the busiest day holds above four; plus 50 for every subject of the
    chromosome spread over as many days as its load (at most five). The
    source looks each subject up in the subject table and raises when the
    chromosome names one the table lacks: `None` here. */
module ListFitness {
  import opened Wrappers
  import opened Counting
  import opened Records
  import opened ListGenome
  import Week

  const Base: int := 10000
  const ClashPenalty: nat := 1000
  const UnavailablePenalty: nat := 500
  const OverloadPenalty: nat := 100
  const DayLimit: nat := 4
  const SpreadBonus: nat := 50

  /** The (teacher, day, slot) key of every gene. */
  function TeacherKeys(c: seq<Gene>): (r: seq<(Option<string>, int, int)>)
    ensures |r| == |c|
  {
    seq(|c|, i requires 0 <= i < |c| => (c[i].teacher, c[i].day as int, c[i].slot as int))
  }

  /** The (room, day, slot) key of every gene. */
  function RoomKeys(c: seq<Gene>): (r: seq<(string, int, int)>)
    ensures |r| == |c|
  {
    seq(|c|, i requires 0 <= i < |c| => (c[i].room, c[i].day as int, c[i].slot as int))
  }

  /** The gene's teacher has a record naming its day and its slot. */
  predicate Available(av: map<string, seq<Availability>>, g: Gene)
  {
    IsAvailable(av, g.teacher, g.day, g.slot)
  }

  /** Number of genes whose teacher is not available where they sit. */
  function Unavailable(av: map<string, seq<Availability>>, c: seq<Gene>): (n: nat)
    ensures n <= |c|
    ensures n == 0 <==> forall i :: 0 <= i < |c| ==> Available(av, c[i])
  {
    if c == [] then 0
    else
      var n := (if Available(av, c[0]) then 0 else 1) + Unavailable(av, c[1..]);
      assert forall i :: 1 <= i < |c| ==> c[i] == c[1..][i - 1];
      n
  }

  function Days(c: seq<Gene>): (r: seq<int>)
    ensures |r| == |c|
  {
    seq(|c|, i requires 0 <= i < |c| => c[i].day as int)
  }

  /** `aulas_por_dia[d]`. */
  function DayLoad(c: seq<Gene>, d: int): nat
  {
    Count(Days(c), d)
  }

  /** `max(aulas_por_dia)`: the load of the busiest weekday. */
  function MaxLoad(c: seq<Gene>): (m: nat)
    ensures forall d :: Week.IsDay(d) ==> DayLoad(c, d) <= m
    ensures exists d :: Week.IsDay(d) && DayLoad(c, d) == m
  {
    var m := Max(Max(Max(Max(DayLoad(c, 0), DayLoad(c, 1)), DayLoad(c, 2)), DayLoad(c, 3)), DayLoad(c, 4));
    assert Week.IsDay(0) && Week.IsDay(1) && Week.IsDay(2) && Week.IsDay(3) && Week.IsDay(4);
    m
  }

  function Overload(c: seq<Gene>): (p: nat)
    ensures p == 0 <==> forall d :: Week.IsDay(d) ==> DayLoad(c, d) <= DayLimit
    ensures p > 0 ==> p == OverloadPenalty * (MaxLoad(c) - DayLimit)
  {
    if MaxLoad(c) > DayLimit then OverloadPenalty * (MaxLoad(c) - DayLimit) else 0
  }

  /** The days on which subject `code` has genes. */
  function DaysUsed(c: seq<Gene>, code: string): set<int>
  {
    set i | 0 <= i < |c| && c[i].subject == code :: c[i].day as int
  }

  /** The spread bonus of the subjects `codes`, or `None` at the first one
      the table lacks (the `KeyError` of the source). */
  function SpreadPoints(cat: Catalog, c: seq<Gene>, codes: seq<string>): (r: Option<nat>)
    ensures r.None? <==> exists k :: 0 <= k < |codes| && SubjectIndex(cat.subjects, codes[k]).None?
    ensures r.Some? ==> r.value <= SpreadBonus * |codes|
  {
    if codes == [] then Some(0)
    else
      var rest := SpreadPoints(cat, c, codes[1..]);
      assert forall k :: 1 <= k < |codes| ==> codes[k] == codes[1..][k - 1];
      match SubjectIndex(cat.subjects, codes[0])
      case None => None
      case Some(j) =>
        var load := cat.subjects[j].hours;
        var p := if |DaysUsed(c, codes[0])| == Min(load, Week.NumDays) then SpreadBonus else 0;
        match rest
        case None => None
        case Some(q) => Some(p + q)
  }

  function Penalties(av: map<string, seq<Availability>>, c: seq<Gene>): nat
  {
    ClashPenalty * Repeats(TeacherKeys(c)) + ClashPenalty * Repeats(RoomKeys(c))
    + UnavailablePenalty * Unavailable(av, c) + Overload(c)
  }

  /** The subjects of the chromosome in order of first appearance, as the
      `disciplina_dias` dictionary lists them. */
  function SubjectsMet(c: seq<Gene>): seq<string>
  {
    Dedup(SubjectCodes(c))
  }

  /** `avaliar_fitness`. */
  function Evaluate(cat: Catalog, c: seq<Gene>): Option<int>
  {
    match SpreadPoints(cat, c, SubjectsMet(c))
    case None => None
    case Some(b) => Some(Base - Penalties(cat.availability, c) + b)
  }

  // ---------------------------------------------------------------------
  // Properties of the fitness
  // ---------------------------------------------------------------------

  /** Every gene teaches a subject of the table. */
  predicate KnownSubjects(cat: Catalog, c: seq<Gene>)
  {
    forall i :: 0 <= i < |c| ==> SubjectIndex(cat.subjects, c[i].subject).Some?
  }

  /** The evaluation raises exactly when some gene's subject is missing
      from the table. */
  lemma {:induction false} FitnessDefined(cat: Catalog, c: seq<Gene>)
    ensures Evaluate(cat, c).Some? <==> KnownSubjects(cat, c)
  {
    var codes := SubjectsMet(c);
    assert Distinct(codes) == Distinct(SubjectCodes(c));
    if KnownSubjects(cat, c) {
      forall k | 0 <= k < |codes| ensures SubjectIndex(cat.subjects, codes[k]).Some? {
        assert codes[k] in Distinct(SubjectCodes(c));
      }
    } else {
      var i :| 0 <= i < |c| && SubjectIndex(cat.subjects, c[i].subject).None?;
      assert SubjectCodes(c)[i] in Distinct(SubjectCodes(c));
      var k :| 0 <= k < |codes| && codes[k] == c[i].subject;
    }
  }

  /** An empty chromosome scores exactly the base. */
  lemma {:induction false} FitnessEmpty(cat: Catalog)
    ensures Evaluate(cat, []) == Some(Base)
  {
    assert SubjectsMet([]) == [];
    assert Days([]) == [];
    assert DayLoad([], 0) == 0 && DayLoad([], 1) == 0 && DayLoad([], 2) == 0;
    assert DayLoad([], 3) == 0 && DayLoad([], 4) == 0;
  }

  /** The clash penalties charge the surplus of genes over distinct keys. */
  lemma {:induction false} FitnessClashes(cat: Catalog, c: seq<Gene>)
    requires Evaluate(cat, c).Some?
    ensures var bonus := SpreadPoints(cat, c, SubjectsMet(c)).value;
            Evaluate(cat, c).value
            == Base - ClashPenalty * (|c| - |Distinct(TeacherKeys(c))|)
                    - ClashPenalty * (|c| - |Distinct(RoomKeys(c))|)
                    - UnavailablePenalty * Unavailable(cat.availability, c) - Overload(c) + bonus
  {
    RepeatsIsSurplus(TeacherKeys(c));
    RepeatsIsSurplus(RoomKeys(c));
  }

  /** No chromosome scores above the base plus one bonus per distinct
      subject it teaches. */
  lemma {:induction false} FitnessUpper(cat: Catalog, c: seq<Gene>)
    requires Evaluate(cat, c).Some?
    ensures Evaluate(cat, c).value <= Base + SpreadBonus * |Distinct(SubjectCodes(c))|
  {
    var codes := SubjectsMet(c);
    DedupLength(codes);
  }

  /** The codes of the subject table. */
  function TableCodes(subjects: seq<Subject>): set<string>
  {
    set i | 0 <= i < |subjects| :: subjects[i].code
  }

  lemma {:induction false} TableCodesSize(subjects: seq<Subject>)
    ensures |TableCodes(subjects)| <= |subjects|
  {
    if subjects != [] {
      var t := subjects[..|subjects| - 1];
      TableCodesSize(t);
      assert TableCodes(subjects) == TableCodes(t) + {subjects[|subjects| - 1].code} by {
        forall x | x in TableCodes(subjects) ensures x in TableCodes(t) + {subjects[|subjects| - 1].code} {
          var i :| 0 <= i < |subjects| && subjects[i].code == x;
          if i < |t| { assert t[i] == subjects[i]; }
        }
        forall i | 0 <= i < |t| ensures t[i].code in TableCodes(subjects) {
          assert t[i] == subjects[i];
        }
      }
    }
  }

  /** No chromosome scores above 10000 plus 50 per subject of the table. */
  lemma {:induction false} FitnessAtMost(cat: Catalog, c: seq<Gene>)
    requires Evaluate(cat, c).Some?
    ensures Evaluate(cat, c).value <= Base + SpreadBonus * |cat.subjects|
  {
    FitnessUpper(cat, c);
    FitnessDefined(cat, c);
    var met := Distinct(SubjectCodes(c));
    assert met <= TableCodes(cat.subjects) by {
      forall x | x in met ensures x in TableCodes(cat.subjects) {
        var i :| 0 <= i < |c| && SubjectCodes(c)[i] == x;
        var j := SubjectIndex(cat.subjects, c[i].subject).value;
      }
    }
    SubsetSize(met, TableCodes(cat.subjects));
    TableCodesSize(cat.subjects);
  }

  /** A chromosome without clashes, with every teacher available and no
      day above four lessons loses nothing: it scores at least the base,
      and so meets the stopping threshold. */
  lemma {:induction false} FitnessClean(cat: Catalog, c: seq<Gene>)
    requires KnownSubjects(cat, c)
    requires NoDuplicates(TeacherKeys(c)) && NoDuplicates(RoomKeys(c))
    requires forall i :: 0 <= i < |c| ==> Available(cat.availability, c[i])
    requires forall d :: Week.IsDay(d) ==> DayLoad(c, d) <= DayLimit
    ensures Evaluate(cat, c).Some? && Evaluate(cat, c).value >= Base
  {
    FitnessDefined(cat, c);
    FitnessClashes(cat, c);
    DedupLength(TeacherKeys(c));
    DedupLength(RoomKeys(c));
  }
}
