/** `verificar_conflitos` of the visualisation script, over a chromosome of
    the list optimiser: one professor entry for every gene whose (teacher,
    day, slot) key met an earlier gene, one room entry for every repeated
    (room, day, slot) key, each naming the first gene with that key and the
    repeat; and one availability entry for every gene whose teacher has no
    record of its day and slot. The entries carry the teacher's and the
    subject's names, looked up in the catalog; a lookup that fails is the
    `KeyError` the source raises, `None` here. */
module ConflictReport {
  import opened Wrappers
  import opened Counting
  import opened Records
  import opened ListGenome
  import opened ListFitness
  import Week

  /** A professor or room entry: the teacher's name or the room, the day
      and slot names, and the positions `aula1` of the first gene with the
      key and `aula2` of the repeat. */
  datatype Clash = Clash(who: string, day: string, time: string, first: nat, second: nat)

  /** An availability entry: teacher's name, day and slot names, subject
      name and the gene's position. */
  datatype Absence = Absence(teacher: string, day: string, time: string, subject: string, lesson: nat)

  datatype Report = Report(teachers: seq<Clash>, rooms: seq<Clash>, absences: seq<Absence>)

  // ---------------------------------------------------------------------
  // The seen-key dictionary
  // ---------------------------------------------------------------------

  /** The (first, repeat) position pairs the seen-key loop reports over the
      first `n` keys, in the order it meets the repeats. */
  function Pairs<K(==)>(keys: seq<K>, n: nat): (r: seq<(nat, nat)>)
    requires n <= |keys|
    ensures forall j :: 0 <= j < |r| ==> r[j].1 < n
  {
    if n == 0 then []
    else Pairs(keys, n - 1) + (if keys[n - 1] in keys[..n - 1] then [(FirstIndex(keys[..n - 1], keys[n - 1]), n - 1)] else [])
  }

  /** One pair per repeated position: the surplus of positions over
      distinct keys. */
  lemma {:induction false} PairsCount<K>(keys: seq<K>, n: nat)
    requires n <= |keys|
    ensures |Pairs(keys, n)| == Repeats(keys[..n]) == n - |Distinct(keys[..n])|
  {
    RepeatsIsSurplus(keys[..n]);
    if n > 0 {
      PairsCount(keys, n - 1);
      RepeatsSnoc(keys, n - 1);
    }
  }

  /** Each pair names a first occurrence and a later repeat of the same
      key. */
  lemma {:induction false} PairsShape<K>(keys: seq<K>, n: nat)
    requires n <= |keys|
    ensures forall j :: 0 <= j < |Pairs(keys, n)| ==> Pairs(keys, n)[j].0 < Pairs(keys, n)[j].1
    ensures forall j :: 0 <= j < |Pairs(keys, n)| ==>
              keys[Pairs(keys, n)[j].0] == keys[Pairs(keys, n)[j].1] && keys[Pairs(keys, n)[j].1] !in keys[..Pairs(keys, n)[j].0]
  {
    if n > 0 {
      PairsShape(keys, n - 1);
      var ps := Pairs(keys, n - 1);
      var qs := Pairs(keys, n);
      if keys[n - 1] in keys[..n - 1] {
        var f := FirstIndex(keys[..n - 1], keys[n - 1]);
        assert keys[..n - 1][..f] == keys[..f];
        assert qs == ps + [(f, n - 1)];
        assert forall j :: 0 <= j < |ps| ==> qs[j] == ps[j];
      } else {
        assert qs == ps;
      }
    }
  }

  /** The repeats are reported in increasing position order. */
  lemma {:induction false} PairsAscending<K>(keys: seq<K>, n: nat)
    requires n <= |keys|
    ensures forall j, j' :: 0 <= j < j' < |Pairs(keys, n)| ==> Pairs(keys, n)[j].1 < Pairs(keys, n)[j'].1
  {
    if n > 0 {
      PairsAscending(keys, n - 1);
      PairsShape(keys, n - 1);
      var ps := Pairs(keys, n - 1);
      var qs := Pairs(keys, n);
      if keys[n - 1] in keys[..n - 1] {
        assert qs == ps + [(FirstIndex(keys[..n - 1], keys[n - 1]), n - 1)];
        assert forall j :: 0 <= j < |ps| ==> qs[j] == ps[j];
      } else {
        assert qs == ps;
      }
    }
  }

  /** Every repeated position is reported. */
  lemma {:induction false} PairsComplete<K>(keys: seq<K>, n: nat, i: nat)
    requires i < n <= |keys| && IsRepeatAt(keys, i)
    ensures exists j :: 0 <= j < |Pairs(keys, n)| && Pairs(keys, n)[j].1 == i
  {
    var ps := Pairs(keys, n - 1);
    if i == n - 1 {
      assert Pairs(keys, n)[|ps|].1 == i;
    } else {
      PairsComplete(keys, n - 1, i);
      var j :| 0 <= j < |ps| && ps[j].1 == i;
      assert Pairs(keys, n)[j] == ps[j];
    }
  }

  /** Only repeated positions are reported. */
  lemma {:induction false} PairsSound<K>(keys: seq<K>, n: nat, j: nat)
    requires n <= |keys| && j < |Pairs(keys, n)|
    ensures Pairs(keys, n)[j].1 < n && IsRepeatAt(keys, Pairs(keys, n)[j].1)
  {
    PairsShape(keys, n);
    var p := Pairs(keys, n)[j];
    assert keys[..p.1][p.0] == keys[p.0];
  }

  /** The pairs over a shorter prefix are a prefix of the pairs. */
  lemma {:induction false} PairsPrefix<K>(keys: seq<K>, i: nat, n: nat)
    requires i <= n <= |keys|
    ensures |Pairs(keys, i)| <= |Pairs(keys, n)| && Pairs(keys, n)[..|Pairs(keys, i)|] == Pairs(keys, i)
  {
    if i < n {
      PairsPrefix(keys, i, n - 1);
      var ps := Pairs(keys, n - 1);
      assert Pairs(keys, n)[..|ps|] == ps;
    }
  }

  // ---------------------------------------------------------------------
  // The entries
  // ---------------------------------------------------------------------

  /** The professor entry of the pair `p`, with the name of the repeat's
      teacher; `None` when the catalog lacks that teacher. */
  function TeacherEntry(cat: Catalog, c: seq<Gene>, p: (nat, nat)): (r: Option<Clash>)
    requires p.1 < |c|
    ensures r.None? <==> TeacherByCode(cat.teachers, c[p.1].teacher).None?
    ensures r.Some? ==> r.value.first == p.0 && r.value.second == p.1
    ensures r.Some? ==> r.value.who == TeacherByCode(cat.teachers, c[p.1].teacher).value.name
                        && r.value.day == Week.DayNames[c[p.1].day] && r.value.time == Week.SlotNames[c[p.1].slot]
  {
    var g := c[p.1];
    match TeacherByCode(cat.teachers, g.teacher)
    case None => None
    case Some(t) => Some(Clash(t.name, Week.DayNames[g.day], Week.SlotNames[g.slot], p.0, p.1))
  }

  /** The room entry of the pair `p`: the room code needs no lookup. */
  function RoomEntry(c: seq<Gene>, p: (nat, nat)): (r: Clash)
    requires p.1 < |c|
    ensures r.who == c[p.1].room && r.first == p.0 && r.second == p.1
  {
    var g := c[p.1];
    Clash(g.room, Week.DayNames[g.day], Week.SlotNames[g.slot], p.0, p.1)
  }

  predicate Within(ps: seq<(nat, nat)>, n: nat)
  {
    forall j :: 0 <= j < |ps| ==> ps[j].1 < n
  }

  function TeacherEntries(cat: Catalog, c: seq<Gene>, ps: seq<(nat, nat)>): (r: seq<Option<Clash>>)
    requires Within(ps, |c|)
    ensures |r| == |ps|
  {
    seq(|ps|, j requires 0 <= j < |ps| => TeacherEntry(cat, c, ps[j]))
  }

  function RoomEntries(c: seq<Gene>, ps: seq<(nat, nat)>): (r: seq<Clash>)
    requires Within(ps, |c|)
    ensures |r| == |ps|
  {
    seq(|ps|, j requires 0 <= j < |ps| => RoomEntry(c, ps[j]))
  }

  /** The positions before `n` of genes whose teacher is not available. */
  function Absent(av: map<string, seq<Availability>>, c: seq<Gene>, n: nat): (r: seq<nat>)
    requires n <= |c|
    ensures forall j :: 0 <= j < |r| ==> r[j] < n
  {
    if n == 0 then [] else Absent(av, c, n - 1) + (if Available(av, c[n - 1]) then [] else [n - 1])
  }

  lemma {:induction false} UnavailableAppend(av: map<string, seq<Availability>>, a: seq<Gene>, b: seq<Gene>)
    ensures Unavailable(av, a + b) == Unavailable(av, a) + Unavailable(av, b)
  {
    if a == [] {
      assert a + b == b;
    } else {
      assert (a + b)[0] == a[0] && (a + b)[1..] == a[1..] + b;
      UnavailableAppend(av, a[1..], b);
    }
  }

  /** One absent position per unavailable gene. */
  lemma {:induction false} AbsentCount(av: map<string, seq<Availability>>, c: seq<Gene>, n: nat)
    requires n <= |c|
    ensures |Absent(av, c, n)| == Unavailable(av, c[..n])
  {
    if n > 0 {
      AbsentCount(av, c, n - 1);
      assert c[..n] == c[..n - 1] + [c[n - 1]];
      UnavailableAppend(av, c[..n - 1], [c[n - 1]]);
    }
  }

  /** The absent positions are the unavailable genes before `n`. */
  lemma {:induction false} AbsentMembers(av: map<string, seq<Availability>>, c: seq<Gene>, n: nat)
    requires n <= |c|
    ensures forall i :: 0 <= i < n ==> (!Available(av, c[i]) <==> i in Absent(av, c, n))
  {
    if n > 0 {
      AbsentMembers(av, c, n - 1);
      var ps := Absent(av, c, n - 1);
      assert forall j :: 0 <= j < |ps| ==> Absent(av, c, n)[j] == ps[j];
    }
  }

  /** They come in increasing order. */
  lemma {:induction false} AbsentAscending(av: map<string, seq<Availability>>, c: seq<Gene>, n: nat)
    requires n <= |c|
    ensures forall j, j' :: 0 <= j < j' < |Absent(av, c, n)| ==> Absent(av, c, n)[j] < Absent(av, c, n)[j']
  {
    if n > 0 {
      AbsentAscending(av, c, n - 1);
      AbsentMembers(av, c, n - 1);
      var ps := Absent(av, c, n - 1);
      assert forall j :: 0 <= j < |ps| ==> Absent(av, c, n)[j] == ps[j];
    }
  }

  /** The availability entry of gene `i`, with its teacher's and its
      subject's names; `None` when the catalog lacks either. */
  function AbsenceEntry(cat: Catalog, c: seq<Gene>, i: nat): (r: Option<Absence>)
    requires i < |c|
    ensures r.None? <==> !Named(cat, c[i])
    ensures r.Some? ==> r.value.lesson == i && r.value.teacher == TeacherByCode(cat.teachers, c[i].teacher).value.name
                        && r.value.subject == cat.subjects[SubjectIndex(cat.subjects, c[i].subject).value].name
                        && r.value.day == Week.DayNames[c[i].day] && r.value.time == Week.SlotNames[c[i].slot]
  {
    var g := c[i];
    match (TeacherByCode(cat.teachers, g.teacher), SubjectIndex(cat.subjects, g.subject))
    case (Some(t), Some(k)) => Some(Absence(t.name, Week.DayNames[g.day], Week.SlotNames[g.slot], cat.subjects[k].name, i))
    case _ => None
  }

  function AbsenceEntries(cat: Catalog, c: seq<Gene>, ps: seq<nat>): (r: seq<Option<Absence>>)
    requires forall j :: 0 <= j < |ps| ==> ps[j] < |c|
    ensures |r| == |ps|
  {
    seq(|ps|, j requires 0 <= j < |ps| => AbsenceEntry(cat, c, ps[j]))
  }

  /** Both the teacher and the subject of the gene are in the catalog. */
  predicate Named(cat: Catalog, g: Gene)
  {
    TeacherByCode(cat.teachers, g.teacher).Some? && SubjectIndex(cat.subjects, g.subject).Some?
  }

  lemma {:induction false} PairsWithin<K>(keys: seq<K>)
    ensures Within(Pairs(keys, |keys|), |keys|)
  {
    PairsShape(keys, |keys|);
  }

  /** `verificar_conflitos`. */
  function Conflicts(cat: Catalog, c: seq<Gene>): Option<Report>
  {
    PairsWithin(TeacherKeys(c));
    PairsWithin(RoomKeys(c));
    AbsentMembers(cat.availability, c, |c|);
    var tps := Pairs(TeacherKeys(c), |c|);
    var rps := Pairs(RoomKeys(c), |c|);
    match (Collect(TeacherEntries(cat, c, tps)), Collect(AbsenceEntries(cat, c, Absent(cat.availability, c, |c|))))
    case (Some(t), Some(a)) => Some(Report(t, RoomEntries(c, rps), a))
    case _ => None
  }

  // ---------------------------------------------------------------------
  // The loops of `verificar_conflitos`
  // ---------------------------------------------------------------------

  /** A position that repeats no key adds no pair. */
  lemma {:induction false} FreshStep<K>(keys: seq<K>, i: nat)
    requires i < |keys| && !IsRepeatAt(keys, i)
    ensures Pairs(keys, i + 1) == Pairs(keys, i)
  {
  }

  /** A repeat at position `i` adds its entry to those before it. */
  lemma {:induction false} TeacherStep(cat: Catalog, c: seq<Gene>, i: nat, clashes: seq<Clash>, entry: Clash)
    requires i < |c| && IsRepeatAt(TeacherKeys(c), i)
    requires Collect(TeacherEntries(cat, c, Pairs(TeacherKeys(c), i))) == Some(clashes)
    requires TeacherEntry(cat, c, (FirstIndex(TeacherKeys(c)[..i], TeacherKeys(c)[i]), i)) == Some(entry)
    ensures Collect(TeacherEntries(cat, c, Pairs(TeacherKeys(c), i + 1))) == Some(clashes + [entry])
  {
    var keys := TeacherKeys(c);
    var p := (FirstIndex(keys[..i], keys[i]), i);
    assert Pairs(keys, i + 1) == Pairs(keys, i) + [p];
    assert TeacherEntries(cat, c, Pairs(keys, i + 1)) == TeacherEntries(cat, c, Pairs(keys, i)) + [Some(entry)];
    CollectSnoc(TeacherEntries(cat, c, Pairs(keys, i)), clashes, entry);
  }

  lemma {:induction false} RoomStep(c: seq<Gene>, i: nat)
    requires i < |c| && IsRepeatAt(RoomKeys(c), i)
    ensures var keys := RoomKeys(c);
            RoomEntries(c, Pairs(keys, i + 1)) == RoomEntries(c, Pairs(keys, i)) + [RoomEntry(c, (FirstIndex(keys[..i], keys[i]), i))]
  {
    var keys := RoomKeys(c);
    assert Pairs(keys, i + 1) == Pairs(keys, i) + [(FirstIndex(keys[..i], keys[i]), i)];
  }

  /** A repeat whose teacher the catalog lacks makes the whole loop raise. */
  lemma {:induction false} TeacherFails(cat: Catalog, c: seq<Gene>, i: nat)
    requires i < |c| && IsRepeatAt(TeacherKeys(c), i) && TeacherByCode(cat.teachers, c[i].teacher).None?
    ensures Collect(TeacherEntries(cat, c, Pairs(TeacherKeys(c), |c|))).None?
  {
    var keys := TeacherKeys(c);
    PairsComplete(keys, |c|, i);
    var j :| 0 <= j < |Pairs(keys, |c|)| && Pairs(keys, |c|)[j].1 == i;
    assert TeacherEntries(cat, c, Pairs(keys, |c|))[j].None?;
  }

  /** The dictionary the seen-key loop keeps after `i` genes: every key met,
      with the position of its first gene. */
  predicate Seen<K(==)>(seen: map<K, nat>, keys: seq<K>, i: nat)
    requires i <= |keys|
  {
    seen.Keys == Distinct(keys[..i])
    && forall k :: k in seen ==> seen[k] < i && keys[seen[k]] == k && k !in keys[..seen[k]]
  }

  /** The dictionary holds the first position of a repeated key. */
  lemma {:induction false} SeenFirst<K>(seen: map<K, nat>, keys: seq<K>, i: nat)
    requires i < |keys| && Seen(seen, keys, i) && keys[i] in seen
    ensures IsRepeatAt(keys, i) && seen[keys[i]] == FirstIndex(keys[..i], keys[i])
  {
    var f := seen[keys[i]];
    assert keys[..i][f] == keys[i];
    assert keys[..i][..f] == keys[..f];
  }

  /** Meeting a new key records its position; a repeat leaves the
      dictionary as it is. */
  lemma {:induction false} SeenAdd<K>(seen: map<K, nat>, keys: seq<K>, i: nat)
    requires i < |keys| && Seen(seen, keys, i)
    ensures keys[i] !in seen ==> !IsRepeatAt(keys, i) && Seen(seen[keys[i] := i], keys, i + 1)
    ensures keys[i] in seen ==> Seen(seen, keys, i + 1)
  {
    assert keys[..i + 1] == keys[..i] + [keys[i]];
  }

  /** One turn of the professor loop: a repeated key adds the entry of
      the repeat, naming its teacher, or raises; a new key is recorded. */
  method TeacherVisit(cat: Catalog, c: seq<Gene>, i: nat, seen: map<(Option<string>, int, int), nat>, clashes: seq<Clash>)
    returns (failed: bool, seen': map<(Option<string>, int, int), nat>, clashes': seq<Clash>)
    requires i < |c| && Seen(seen, TeacherKeys(c), i)
    requires Collect(TeacherEntries(cat, c, Pairs(TeacherKeys(c), i))) == Some(clashes)
    ensures failed ==> Collect(TeacherEntries(cat, c, Pairs(TeacherKeys(c), |c|))).None?
    ensures !failed ==> Seen(seen', TeacherKeys(c), i + 1)
                        && Collect(TeacherEntries(cat, c, Pairs(TeacherKeys(c), i + 1))) == Some(clashes')
  {
    ghost var keys := TeacherKeys(c);
    var g := c[i];
    var key := (g.teacher, g.day as int, g.slot as int);
    assert key == keys[i];
    SeenAdd(seen, keys, i);
    failed, seen', clashes' := false, seen, clashes;
    if key in seen {
      SeenFirst(seen, keys, i);
      var t := TeacherByCode(cat.teachers, g.teacher);
      if t.None? {
        TeacherFails(cat, c, i);
        failed := true;
      } else {
        var entry := Clash(t.value.name, Week.DayNames[g.day], Week.SlotNames[g.slot], seen[key], i);
        TeacherStep(cat, c, i, clashes, entry);
        clashes' := clashes + [entry];
      }
    } else {
      FreshStep(keys, i);
      seen' := seen[key := i];
    }
  }

  /** The professor loop. */
  method TeacherLoop(cat: Catalog, c: seq<Gene>) returns (r: Option<seq<Clash>>)
    ensures r == Collect(TeacherEntries(cat, c, Pairs(TeacherKeys(c), |c|)))
  {
    var seen: map<(Option<string>, int, int), nat> := map[];
    var clashes: seq<Clash> := [];
    for i := 0 to |c|
      invariant Seen(seen, TeacherKeys(c), i)
      invariant Collect(TeacherEntries(cat, c, Pairs(TeacherKeys(c), i))) == Some(clashes)
    {
      var failed;
      failed, seen, clashes := TeacherVisit(cat, c, i, seen, clashes);
      if failed {
        return None;
      }
    }
    r := Some(clashes);
  }

  /** The room loop. */
  method RoomLoop(c: seq<Gene>) returns (r: seq<Clash>)
    ensures r == RoomEntries(c, Pairs(RoomKeys(c), |c|))
  {
    ghost var keys := RoomKeys(c);
    var seen: map<(string, int, int), nat> := map[];
    r := [];
    for i := 0 to |c|
      invariant Seen(seen, keys, i)
      invariant r == RoomEntries(c, Pairs(keys, i))
    {
      var g := c[i];
      var key := (g.room, g.day as int, g.slot as int);
      assert key == keys[i];
      SeenAdd(seen, keys, i);
      if key in seen {
        SeenFirst(seen, keys, i);
        RoomStep(c, i);
        r := r + [Clash(g.room, Week.DayNames[g.day], Week.SlotNames[g.slot], seen[key], i)];
      } else {
        FreshStep(keys, i);
        seen := seen[key := i];
      }
    }
  }

  /** `for disp in disponibilidades[professor]`, stopping at the first
      record naming the day and the slot. */
  method HasRecord(records: seq<Availability>, day: string, slot: string) returns (found: bool)
    ensures found == HasSlot(records, day, slot)
  {
    found := false;
    for k := 0 to |records|
      invariant !found && forall j :: 0 <= j < k ==> !(records[j].day == day && records[j].slot == slot)
    {
      if records[k].day == day && records[k].slot == slot {
        return true;
      }
    }
  }

  /** One turn of the availability loop: a gene whose teacher has no
      record of its day and slot adds its entry, or raises when the
      catalog lacks its teacher or its subject. */
  method AbsenceVisit(cat: Catalog, c: seq<Gene>, i: nat, absences: seq<Absence>)
    returns (failed: bool, absences': seq<Absence>)
    requires i < |c|
    requires Collect(AbsenceEntries(cat, c, Absent(cat.availability, c, i))) == Some(absences)
    ensures failed ==> Collect(AbsenceEntries(cat, c, Absent(cat.availability, c, |c|))).None?
    ensures !failed ==> Collect(AbsenceEntries(cat, c, Absent(cat.availability, c, i + 1))) == Some(absences')
  {
    var g := c[i];
    var available := TeacherAvailable(cat.availability, g);
    failed, absences' := false, absences;
    if available {
      assert Absent(cat.availability, c, i + 1) == Absent(cat.availability, c, i);
    } else {
      var t := TeacherByCode(cat.teachers, g.teacher);
      var k := SubjectIndex(cat.subjects, g.subject);
      if t.None? || k.None? {
        AbsenceFails(cat, c, i);
        failed := true;
      } else {
        var entry := Absence(t.value.name, Week.DayNames[g.day], Week.SlotNames[g.slot], cat.subjects[k.value].name, i);
        assert AbsenceEntry(cat, c, i) == Some(entry);
        AbsenceStep(cat, c, i, absences, entry);
        absences' := absences + [entry];
      }
    }
  }

  lemma {:induction false} AbsenceStep(cat: Catalog, c: seq<Gene>, i: nat, absences: seq<Absence>, entry: Absence)
    requires i < |c| && !Available(cat.availability, c[i])
    requires Collect(AbsenceEntries(cat, c, Absent(cat.availability, c, i))) == Some(absences)
    requires AbsenceEntry(cat, c, i) == Some(entry)
    ensures Collect(AbsenceEntries(cat, c, Absent(cat.availability, c, i + 1))) == Some(absences + [entry])
  {
    var av := cat.availability;
    assert Absent(av, c, i + 1) == Absent(av, c, i) + [i];
    assert AbsenceEntries(cat, c, Absent(av, c, i + 1)) == AbsenceEntries(cat, c, Absent(av, c, i)) + [Some(entry)];
    CollectSnoc(AbsenceEntries(cat, c, Absent(av, c, i)), absences, entry);
  }

  /** `if professor in disponibilidades`, then the record search. */
  method TeacherAvailable(av: map<string, seq<Availability>>, g: Gene) returns (available: bool)
    ensures available == Available(av, g)
  {
    available := false;
    if g.teacher.Some? && g.teacher.value in av {
      available := HasRecord(av[g.teacher.value], Week.DayNames[g.day], Week.SlotNames[g.slot]);
    }
  }

  /** The availability loop. */
  method AvailabilityLoop(cat: Catalog, c: seq<Gene>) returns (r: Option<seq<Absence>>)
    ensures r == Collect(AbsenceEntries(cat, c, Absent(cat.availability, c, |c|)))
  {
    var absences: seq<Absence> := [];
    for i := 0 to |c|
      invariant Collect(AbsenceEntries(cat, c, Absent(cat.availability, c, i))) == Some(absences)
    {
      var failed;
      failed, absences := AbsenceVisit(cat, c, i, absences);
      if failed {
        return None;
      }
    }
    r := Some(absences);
  }

  /** An unavailable gene whose teacher or subject the catalog lacks makes
      the whole loop raise. */
  lemma {:induction false} AbsenceFails(cat: Catalog, c: seq<Gene>, i: nat)
    requires i < |c| && !Available(cat.availability, c[i]) && !Named(cat, c[i])
    ensures Collect(AbsenceEntries(cat, c, Absent(cat.availability, c, |c|))).None?
  {
    var av := cat.availability;
    AbsentMembers(av, c, |c|);
    var ps := Absent(av, c, |c|);
    var j :| 0 <= j < |ps| && ps[j] == i;
    assert AbsenceEntries(cat, c, ps)[j].None?;
  }

  /** `verificar_conflitos`: the three loops in turn. */
  method CheckConflicts(cat: Catalog, c: seq<Gene>) returns (r: Option<Report>)
    ensures r == Conflicts(cat, c)
  {
    var teachers := TeacherLoop(cat, c);
    if teachers.None? {
      return None;
    }
    var rooms := RoomLoop(c);
    var absences := AvailabilityLoop(cat, c);
    if absences.None? {
      return None;
    }
    r := Some(Report(teachers.value, rooms, absences.value));
  }

  // ---------------------------------------------------------------------
  // What the report says
  // ---------------------------------------------------------------------

  /** The report lists one professor entry per gene whose (teacher, day,
      slot) key is a repeat, one room entry per repeated (room, day, slot)
      key and one availability entry per unavailable gene. */
  lemma {:induction false} ConflictCounts(cat: Catalog, c: seq<Gene>)
    requires Conflicts(cat, c).Some?
    ensures |Conflicts(cat, c).value.teachers| == Repeats(TeacherKeys(c)) == |c| - |Distinct(TeacherKeys(c))|
    ensures |Conflicts(cat, c).value.rooms| == Repeats(RoomKeys(c)) == |c| - |Distinct(RoomKeys(c))|
    ensures |Conflicts(cat, c).value.absences| == Unavailable(cat.availability, c)
  {
    var tk, rk := TeacherKeys(c), RoomKeys(c);
    PairsCount(tk, |c|);
    PairsCount(rk, |c|);
    AbsentCount(cat.availability, c, |c|);
    assert tk[..|c|] == tk && rk[..|c|] == rk && c[..|c|] == c;
  }

  /** The lengths of the three lists weighted as `avaliar_fitness` weighs
      them, plus the day overload, are exactly the penalties of the list
      optimiser's fitness. */
  lemma {:induction false} ConflictPenalty(cat: Catalog, c: seq<Gene>)
    requires Conflicts(cat, c).Some?
    ensures ClashPenalty * |Conflicts(cat, c).value.teachers| + ClashPenalty * |Conflicts(cat, c).value.rooms|
            + UnavailablePenalty * |Conflicts(cat, c).value.absences| + Overload(c) == Penalties(cat.availability, c)
  {
    ConflictCounts(cat, c);
  }

  /** A professor entry names the first gene with the key and a later gene
      with the same teacher, day and slot, with the teacher's name and the
      day and slot names. */
  lemma {:induction false} TeacherClashShape(cat: Catalog, c: seq<Gene>, k: nat)
    requires Conflicts(cat, c).Some? && k < |Conflicts(cat, c).value.teachers|
    ensures var e := Conflicts(cat, c).value.teachers[k];
            e.first < e.second < |c|
            && c[e.first].teacher == c[e.second].teacher && c[e.first].day == c[e.second].day && c[e.first].slot == c[e.second].slot
            && TeacherKeys(c)[e.second] !in TeacherKeys(c)[..e.first]
            && TeacherByCode(cat.teachers, c[e.second].teacher).Some?
            && e.who == TeacherByCode(cat.teachers, c[e.second].teacher).value.name
            && e.day == Week.DayNames[c[e.second].day] && e.time == Week.SlotNames[c[e.second].slot]
  {
    var tk := TeacherKeys(c);
    var ps := Pairs(tk, |c|);
    PairsWithin(tk);
    PairsShape(tk, |c|);
    assert TeacherEntries(cat, c, ps)[k] == Some(Conflicts(cat, c).value.teachers[k]);
  }

  /** A room entry names the first gene with the key and a later gene in
      the same room, day and slot. */
  lemma {:induction false} RoomClashShape(cat: Catalog, c: seq<Gene>, k: nat)
    requires Conflicts(cat, c).Some? && k < |Conflicts(cat, c).value.rooms|
    ensures var e := Conflicts(cat, c).value.rooms[k];
            e.first < e.second < |c|
            && c[e.first].room == c[e.second].room && c[e.first].day == c[e.second].day && c[e.first].slot == c[e.second].slot
            && RoomKeys(c)[e.second] !in RoomKeys(c)[..e.first]
            && e.who == c[e.second].room
  {
    var rk := RoomKeys(c);
    PairsWithin(rk);
    PairsShape(rk, |c|);
  }

  /** An availability entry names an unavailable gene whose teacher and
      subject the catalog knows, with their names. */
  lemma {:induction false} AbsenceShape(cat: Catalog, c: seq<Gene>, k: nat)
    requires Conflicts(cat, c).Some? && k < |Conflicts(cat, c).value.absences|
    ensures var e := Conflicts(cat, c).value.absences[k];
            e.lesson < |c| && !Available(cat.availability, c[e.lesson]) && Named(cat, c[e.lesson])
            && e.teacher == TeacherByCode(cat.teachers, c[e.lesson].teacher).value.name
            && e.subject == cat.subjects[SubjectIndex(cat.subjects, c[e.lesson].subject).value].name
            && e.day == Week.DayNames[c[e.lesson].day] && e.time == Week.SlotNames[c[e.lesson].slot]
  {
    var ps := Absent(cat.availability, c, |c|);
    AbsentMembers(cat.availability, c, |c|);
    assert AbsenceEntries(cat, c, ps)[k] == Some(Conflicts(cat, c).value.absences[k]);
  }

  /** Every list follows the genes' order: by the repeat's position for
      the professor and room entries, by the gene's for the availability
      entries. */
  lemma {:induction false} ConflictOrder(cat: Catalog, c: seq<Gene>, k: nat, k': nat)
    requires Conflicts(cat, c).Some?
    ensures var r := Conflicts(cat, c).value;
            (k < k' < |r.teachers| ==> r.teachers[k].second < r.teachers[k'].second)
            && (k < k' < |r.rooms| ==> r.rooms[k].second < r.rooms[k'].second)
            && (k < k' < |r.absences| ==> r.absences[k].lesson < r.absences[k'].lesson)
  {
    PairsAscending(TeacherKeys(c), |c|);
    PairsAscending(RoomKeys(c), |c|);
    AbsentAscending(cat.availability, c, |c|);
    var r := Conflicts(cat, c).value;
    var ps := Pairs(TeacherKeys(c), |c|);
    if k < k' < |r.teachers| {
      assert TeacherEntries(cat, c, ps)[k] == Some(r.teachers[k]);
      assert TeacherEntries(cat, c, ps)[k'] == Some(r.teachers[k']);
    }
    var qs := Absent(cat.availability, c, |c|);
    if k < k' < |r.absences| {
      assert AbsenceEntries(cat, c, qs)[k] == Some(r.absences[k]);
      assert AbsenceEntries(cat, c, qs)[k'] == Some(r.absences[k']);
    }
  }

  /** A gene gets a professor entry exactly when its (teacher, day, slot)
      key is a repeat, and a room entry exactly when its (room, day, slot)
      key is. */
  lemma {:induction false} ClashesComplete(cat: Catalog, c: seq<Gene>, i: nat)
    requires Conflicts(cat, c).Some? && i < |c|
    ensures IsRepeatAt(TeacherKeys(c), i) <==>
              exists k :: 0 <= k < |Conflicts(cat, c).value.teachers| && Conflicts(cat, c).value.teachers[k].second == i
    ensures IsRepeatAt(RoomKeys(c), i) <==>
              exists k :: 0 <= k < |Conflicts(cat, c).value.rooms| && Conflicts(cat, c).value.rooms[k].second == i
  {
    var r := Conflicts(cat, c).value;
    var tk, rk := TeacherKeys(c), RoomKeys(c);
    var ps, qs := Pairs(tk, |c|), Pairs(rk, |c|);
    PairsWithin(tk);
    PairsWithin(rk);
    if IsRepeatAt(tk, i) {
      PairsComplete(tk, |c|, i);
      var j :| 0 <= j < |ps| && ps[j].1 == i;
      assert TeacherEntries(cat, c, ps)[j] == Some(r.teachers[j]);
    }
    if k :| 0 <= k < |r.teachers| && r.teachers[k].second == i {
      assert TeacherEntries(cat, c, ps)[k] == Some(r.teachers[k]);
      PairsSound(tk, |c|, k);
    }
    if IsRepeatAt(rk, i) {
      PairsComplete(rk, |c|, i);
      var j :| 0 <= j < |qs| && qs[j].1 == i;
      assert RoomEntries(c, qs)[j] == RoomEntry(c, qs[j]);
      assert r.rooms[j].second == i;
    }
    if k :| 0 <= k < |r.rooms| && r.rooms[k].second == i {
      assert RoomEntries(c, qs)[k] == RoomEntry(c, qs[k]);
      PairsSound(rk, |c|, k);
    }
  }

  /** A gene gets an availability entry exactly when its teacher is not
      available at its day and slot. */
  lemma {:induction false} AbsencesComplete(cat: Catalog, c: seq<Gene>, i: nat)
    requires Conflicts(cat, c).Some? && i < |c|
    ensures !Available(cat.availability, c[i]) <==>
              exists k :: 0 <= k < |Conflicts(cat, c).value.absences| && Conflicts(cat, c).value.absences[k].lesson == i
  {
    var r := Conflicts(cat, c).value;
    var ps := Absent(cat.availability, c, |c|);
    AbsentMembers(cat.availability, c, |c|);
    if !Available(cat.availability, c[i]) {
      var j :| 0 <= j < |ps| && ps[j] == i;
      assert AbsenceEntries(cat, c, ps)[j] == Some(r.absences[j]);
    }
    if k :| 0 <= k < |r.absences| && r.absences[k].lesson == i {
      assert AbsenceEntries(cat, c, ps)[k] == Some(r.absences[k]);
    }
  }

  /** `verificar_conflitos` raises `KeyError` exactly when a repeated
      (teacher, day, slot) gene has a teacher the catalog lacks, or an
      unavailable gene has a teacher or a subject it lacks. */
  lemma {:induction false} ConflictsDefined(cat: Catalog, c: seq<Gene>)
    ensures Conflicts(cat, c).None? <==>
              (exists i :: 0 <= i < |c| && IsRepeatAt(TeacherKeys(c), i) && TeacherByCode(cat.teachers, c[i].teacher).None?)
              || (exists i :: 0 <= i < |c| && !Available(cat.availability, c[i]) && !Named(cat, c[i]))
  {
    var tk := TeacherKeys(c);
    var ps := Pairs(tk, |c|);
    var qs := Absent(cat.availability, c, |c|);
    PairsWithin(tk);
    AbsentMembers(cat.availability, c, |c|);
    if i :| 0 <= i < |c| && IsRepeatAt(tk, i) && TeacherByCode(cat.teachers, c[i].teacher).None? {
      TeacherFails(cat, c, i);
    }
    if i :| 0 <= i < |c| && !Available(cat.availability, c[i]) && !Named(cat, c[i]) {
      AbsenceFails(cat, c, i);
    }
    if Collect(TeacherEntries(cat, c, ps)).None? {
      var j :| 0 <= j < |ps| && TeacherEntries(cat, c, ps)[j].None?;
      assert TeacherEntries(cat, c, ps)[j] == TeacherEntry(cat, c, ps[j]);
      PairsSound(tk, |c|, j);
    }
    if Collect(AbsenceEntries(cat, c, qs)).None? {
      var j :| 0 <= j < |qs| && AbsenceEntries(cat, c, qs)[j].None?;
      assert AbsenceEntries(cat, c, qs)[j] == AbsenceEntry(cat, c, qs[j]);
      assert qs[j] < |c| && qs[j] in qs;
    }
  }
}
