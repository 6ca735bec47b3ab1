/** The list genome of the first optimiser (genetic_scheduler.py): a
    chromosome is a list of gene records, one per demanded lesson, each
    placed at a drawn day and slot. The lessons are the same demand list
    the grid optimiser builds (`GridGenome.Demand`): every subject in
    dictionary order, as many times as its weekly load, with its first
    teacher and the first room. The two `random.choice` draws of every
    `criar_gene` call are the caller's, one `Pick` per gene. */
module ListGenome {
  import opened Wrappers
  import opened Counting
  import opened Records
  import opened GridGenome
  import Week


  /** A gene record `{disciplina, professor, dia, horario, sala}`. */
  datatype Gene = Gene(subject: string, teacher: Option<string>, day: Week.DayIndex, slot: Week.SlotIndex, room: string)

  /** The day and slot drawn for one gene. */
  datatype Pick = Pick(day: Week.DayIndex, slot: Week.SlotIndex)

  /** `criar_gene`: the lesson placed at the drawn day and slot. */
  function Place(l: Lesson, p: Pick): Gene
  {
    Gene(l.subject, l.teacher, p.day, p.slot, l.room)
  }

  /** What a gene teaches, without where and when. */
  function LessonOf(g: Gene): Lesson
  {
    Lesson(g.subject, g.teacher, g.room)
  }

  function LessonsOf(c: seq<Gene>): (r: seq<Lesson>)
    ensures |r| == |c|
  {
    seq(|c|, i requires 0 <= i < |c| => LessonOf(c[i]))
  }

  /** The genes of a chromosome whose lessons are `ls`, gene `i` placed
      by pick `i`. */
  function Chromosome(ls: seq<Lesson>, picks: seq<Pick>): (c: seq<Gene>)
    requires |picks| == |ls|
    ensures LessonsOf(c) == ls
    ensures forall i :: 0 <= i < |c| ==> c[i].day == picks[i].day && c[i].slot == picks[i].slot
  {
    var c := seq(|ls|, i requires 0 <= i < |ls| => Place(ls[i], picks[i]));
    assert LessonsOf(c) == ls;
    c
  }

  /** The demand of a prefix of the subject table is no longer than the
      whole demand. */
  lemma {:induction false} DemandPrefixLength(teachers: seq<Teacher>, subjects: seq<Subject>, room: string, i: nat)
    requires i <= |subjects|
    ensures |DemandFor(teachers, subjects[..i], room)| <= |DemandFor(teachers, subjects, room)|
  {
    if i < |subjects| {
      var init := subjects[..|subjects| - 1];
      assert subjects[..i] == init[..i];
      DemandPrefixLength(teachers, init, room, i);
    } else {
      assert subjects[..i] == subjects;
    }
  }

  /** `criar_cromossomo`: for each subject in dictionary order, one gene
      per hour of its load. `None` when a gene is due and the room table
      is empty (the source raises on the missing first room). */
  method CreateChromosome(cat: Catalog, picks: seq<Pick>) returns (r: Option<seq<Gene>>)
    requires |picks| == |Demand(cat)|
    ensures r.None? <==> !HasRoomFor(cat)
    ensures r.Some? ==> r.value == Chromosome(Demand(cat), picks)
  {
    var acc: seq<Gene> := [];
    ghost var done: seq<Lesson> := [];
    var i := 0;
    while i < |cat.subjects|
      invariant 0 <= i <= |cat.subjects|
      invariant done == DemandFor(cat.teachers, cat.subjects[..i], FirstRoom(cat))
      invariant |done| <= |picks| && PlacedAt(acc, done, picks)
      invariant |cat.rooms| == 0 ==> forall j :: 0 <= j < i ==> cat.subjects[j].hours <= 0
    {
      var s := cat.subjects[i];
      if Hours(s) > 0 && |cat.rooms| == 0 {
        return None;
      }
      var l := Lesson(s.code, FirstTeacher(cat.teachers, s.code), FirstRoom(cat));
      DemandPrefixLength(cat.teachers, cat.subjects, FirstRoom(cat), i + 1);
      assert cat.subjects[..i + 1][..i] == cat.subjects[..i];
      acc := PlaceCopies(acc, done, l, Hours(s), picks);
      done := done + Repeat(l, Hours(s));
      i := i + 1;
    }
    assert cat.subjects[..i] == cat.subjects;
    return Some(acc);
  }

  /** Gene `j` of `acc` is lesson `j` of `done` placed by pick `j`. */
  predicate PlacedAt(acc: seq<Gene>, done: seq<Lesson>, picks: seq<Pick>)
  {
    |acc| == |done| <= |picks| && forall j :: 0 <= j < |acc| ==> acc[j] == Place(done[j], picks[j])
  }

  /** The inner loop of `criar_cromossomo`: `n` genes of one lesson, each
      at the next pick. */
  method PlaceCopies(acc: seq<Gene>, ghost done: seq<Lesson>, l: Lesson, n: nat, picks: seq<Pick>)
    returns (acc': seq<Gene>)
    requires PlacedAt(acc, done, picks) && |done| + n <= |picks|
    ensures PlacedAt(acc', done + Repeat(l, n), picks)
  {
    acc' := acc;
    var k := 0;
    while k < n
      invariant 0 <= k <= n
      invariant PlacedAt(acc', done + Repeat(l, k), picks)
    {
      assert Repeat(l, k + 1) == Repeat(l, k) + [l];
      acc' := acc' + [Place(l, picks[|acc'|])];
      k := k + 1;
    }
  }

  /** `inicializar_populacao`: one chromosome per start. */
  function InitialPopulation(ls: seq<Lesson>, starts: seq<seq<Pick>>): (r: seq<seq<Gene>>)
    requires forall i :: 0 <= i < |starts| ==> |starts[i]| == |ls|
    ensures |r| == |starts| && forall i :: 0 <= i < |r| ==> LessonsOf(r[i]) == ls
  {
    seq(|starts|, i requires 0 <= i < |starts| => Chromosome(ls, starts[i]))
  }

  /** `inicializar_populacao`, which calls `criar_cromossomo` once per
      individual and so raises as soon as one is built without a room. */
  method InitializePopulation(cat: Catalog, starts: seq<seq<Pick>>) returns (r: Option<seq<seq<Gene>>>)
    requires forall i :: 0 <= i < |starts| ==> |starts[i]| == |Demand(cat)|
    ensures r.None? <==> !HasRoomFor(cat) && |starts| > 0
    ensures r.Some? ==> r.value == InitialPopulation(Demand(cat), starts)
  {
    ghost var want := InitialPopulation(Demand(cat), starts);
    var pop: seq<seq<Gene>> := [];
    var i := 0;
    while i < |starts|
      invariant 0 <= i <= |starts|
      invariant i > 0 ==> HasRoomFor(cat)
      invariant pop == want[..i]
    {
      var c := CreateChromosome(cat, starts[i]);
      if c.None? {
        return None;
      }
      assert want[..i + 1] == want[..i] + [c.value];
      pop := pop + [c.value];
      i := i + 1;
    }
    assert want[..i] == want;
    return Some(pop);
  }

  // ---------------------------------------------------------------------
  // What a created chromosome holds
  // ---------------------------------------------------------------------

  function SubjectCodes(c: seq<Gene>): (r: seq<string>)
    ensures |r| == |c|
  {
    seq(|c|, i requires 0 <= i < |c| => c[i].subject)
  }

  /** A chromosome of `criar_cromossomo` holds exactly the weekly load of
      genes of every subject, and none of a code outside the table. */
  lemma {:induction false} ChromosomeCounts(cat: Catalog, picks: seq<Pick>, code: string)
    requires UniqueSubjectCodes(cat.subjects) && |picks| == |Demand(cat)|
    ensures Count(SubjectCodes(Chromosome(Demand(cat), picks)), code)
            == if exists i :: 0 <= i < |cat.subjects| && cat.subjects[i].code == code
               then Hours(cat.subjects[SubjectIndex(cat.subjects, code).value]) else 0
  {
    var c := Chromosome(Demand(cat), picks);
    assert SubjectCodes(c) == SubjectsOf(LessonsOf(c));
    DemandCount(cat.teachers, cat.subjects, FirstRoom(cat), code);
  }

  /** Every gene of a created chromosome teaches a subject of the table,
      with that subject's first teacher, in the first room. */
  lemma {:induction false} ChromosomeGenes(cat: Catalog, picks: seq<Pick>)
    requires |picks| == |Demand(cat)|
    ensures var c := Chromosome(Demand(cat), picks);
            forall i :: 0 <= i < |c| ==>
              c[i].room == FirstRoom(cat) && c[i].teacher == FirstTeacher(cat.teachers, c[i].subject)
              && SubjectIndex(cat.subjects, c[i].subject).Some?
  {
    var c := Chromosome(Demand(cat), picks);
    DemandLessons(cat.teachers, cat.subjects, FirstRoom(cat));
    forall i | 0 <= i < |c|
      ensures c[i].room == FirstRoom(cat) && c[i].teacher == FirstTeacher(cat.teachers, c[i].subject)
              && SubjectIndex(cat.subjects, c[i].subject).Some?
    {
      assert LessonOf(c[i]) == Demand(cat)[i];
      assert Demand(cat)[i] in Demand(cat);
    }
  }

  /** A subject's position in the table is the same in any longer table. */
  lemma {:induction false} SubjectIndexPrefix(subjects: seq<Subject>, n: nat, code: string)
    requires n <= |subjects| && SubjectIndex(subjects[..n], code).Some?
    ensures SubjectIndex(subjects, code) == SubjectIndex(subjects[..n], code)
  {
    var j := SubjectIndex(subjects[..n], code).value;
    assert subjects[..n][j] == subjects[j];
    assert forall m :: 0 <= m < j ==> subjects[m] == subjects[..n][m];
  }

  /** The table position of every lesson's subject, when it has one. */
  predicate InTable(subjects: seq<Subject>, d: seq<Lesson>)
  {
    forall i :: 0 <= i < |d| ==> SubjectIndex(subjects, d[i].subject).Some?
  }

  /** Lessons listed in the order of their subjects' table positions. */
  predicate GroupedBy(subjects: seq<Subject>, d: seq<Lesson>)
    requires InTable(subjects, d)
  {
    forall i, j :: 0 <= i < j < |d| ==>
      SubjectIndex(subjects, d[i].subject).value <= SubjectIndex(subjects, d[j].subject).value
  }

  /** The demand lists the lessons grouped by subject, in the order of the
      subject table. */
  lemma {:induction false} DemandOrdered(teachers: seq<Teacher>, subjects: seq<Subject>, room: string)
    requires UniqueSubjectCodes(subjects)
    ensures InTable(subjects, DemandFor(teachers, subjects, room))
    ensures GroupedBy(subjects, DemandFor(teachers, subjects, room))
  {
    if subjects != [] {
      var n := |subjects| - 1;
      var init := subjects[..n];
      var last := subjects[n];
      assert UniqueSubjectCodes(init);
      DemandOrdered(teachers, init, room);
      var a := DemandFor(teachers, init, room);
      var b := Repeat(LessonFor(teachers, last, room), Hours(last));
      assert SubjectIndex(subjects, last.code) == Some(n) by {
        forall k | 0 <= k < n ensures subjects[k].code != last.code { }
      }
      forall i | 0 <= i < |a|
        ensures SubjectIndex(subjects, a[i].subject) == SubjectIndex(init, a[i].subject)
      {
        SubjectIndexPrefix(subjects, n, a[i].subject);
      }
      DemandJoin(subjects, a, b, n);
    }
  }

  /** Joining a grouped prefix with lessons of a later subject. */
  lemma {:induction false} DemandJoin(subjects: seq<Subject>, a: seq<Lesson>, b: seq<Lesson>, n: nat)
    requires n < |subjects| && InTable(subjects[..n], a) && GroupedBy(subjects[..n], a)
    requires SubjectIndex(subjects, subjects[n].code) == Some(n)
    requires forall i :: 0 <= i < |a| ==> SubjectIndex(subjects, a[i].subject) == SubjectIndex(subjects[..n], a[i].subject)
    requires forall i :: 0 <= i < |b| ==> b[i].subject == subjects[n].code
    ensures InTable(subjects, a + b) && GroupedBy(subjects, a + b)
  {
    var d := a + b;
    forall i | 0 <= i < |d| ensures SubjectIndex(subjects, d[i].subject).Some? {
      if i < |a| { assert d[i] == a[i]; } else { assert d[i] == b[i - |a|]; }
    }
    forall i, j | 0 <= i < j < |d|
      ensures SubjectIndex(subjects, d[i].subject).value <= SubjectIndex(subjects, d[j].subject).value
    {
      if j < |a| {
        assert d[i] == a[i] && d[j] == a[j];
      } else if i < |a| {
        assert d[i] == a[i] && d[j] == b[j - |a|];
      } else {
        assert d[i] == b[i - |a|] && d[j] == b[j - |a|];
      }
    }
  }
}
