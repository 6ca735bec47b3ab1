/** The data of the rule-based optimiser: the rows of the `disciplinas`,
    `professores`, `salas` and `disponibilidade` tables, the gene record
    `criar_gene` builds, the splitting rule of a weekly load, and the
    availability test. A table is a sequence of rows in file order; the
    availability table is `None` until it is loaded. Days and slots are
    positions in `Week.DayNames` and `Week.SlotNames`. */
module RuleData {
  import opened Wrappers
  import opened Counting
  import Week

  /** A `disciplinas` row: `CODDISC`, `NOME`, `CARGAHORARIA`, `CODTURMA`. */
  datatype Course = Course(code: string, name: string, hours: int, cohort: string)

  /** A `professores` row: `CODPROF` and the `CODDISC` taught. */
  datatype Lecturer = Lecturer(code: string, subject: string)

  /** A `salas` row: `CODSALA`. */
  datatype Hall = Hall(code: string)

  /** A `disponibilidade` row: `CODPROF`, `DIADASEMANA`, `HORARIO`. */
  datatype FreeRecord = FreeRecord(teacher: string, day: string, time: string)

  datatype Tables = Tables(courses: seq<Course>, lecturers: seq<Lecturer>, halls: seq<Hall>,
                           availability: Option<seq<FreeRecord>>)

  /** The one cohort every individual is built for. */
  const Cohort: string := "SIN-2A-N"

  /** The gene record of `criar_gene`: subject code and name, cohort,
      teacher, room, day, slot and the lesson's number within its subject. */
  datatype Booking = Booking(subject: string, name: string, cohort: string, teacher: string, room: string,
                             day: Week.DayIndex, slot: Week.SlotIndex, number: int)

  // ---------------------------------------------------------------------
  // The splitting rule
  // ---------------------------------------------------------------------

  /** `determinar_regra`: two lessons in a row on one day, three split two
      plus one, four split two plus two; any other load is its own rule. */
  datatype Rule = Consecutive | SplitTwoOne | SplitTwoTwo | Lessons(count: int)

  function DetermineRule(n: int): (r: Rule)
    ensures (r == Consecutive <==> n == 2) && (r == SplitTwoOne <==> n == 3) && (r == SplitTwoTwo <==> n == 4)
    ensures r.Lessons? <==> !(2 <= n <= 4)
    ensures r.Lessons? ==> r.count == n
  {
    if n == 2 then Consecutive
    else if n == 3 then SplitTwoOne
    else if n == 4 then SplitTwoTwo
    else Lessons(n)
  }

  /** The blocks `alocar_aulas_por_regra` asks for, in order: each one is a
      run of lessons on one day starting at 18:50. A load outside 2..4 asks
      for a single lesson. */
  function Blocks(n: int): seq<int>
  {
    if n == 2 then [2] else if n == 3 then [2, 1] else if n == 4 then [2, 2] else [1]
  }

  /** The blocks of the rule `determinar_regra` names. */
  function RuleBlocks(r: Rule): seq<int>
  {
    match r
    case Consecutive => [2]
    case SplitTwoOne => [2, 1]
    case SplitTwoTwo => [2, 2]
    case Lessons(_) => [1]
  }

  /** The allocation follows the named rule; its blocks are of one or two
      lessons; they add up to the load for loads 2, 3 and 4, and to a
      single lesson for any other load. */
  lemma {:induction false} BlocksFollowRule(n: int)
    ensures Blocks(n) == RuleBlocks(DetermineRule(n))
    ensures forall k :: 0 <= k < |Blocks(n)| ==> Blocks(n)[k] == 1 || Blocks(n)[k] == 2
    ensures Sum(Blocks(n)) == if 2 <= n <= 4 then n else 1
    ensures |Blocks(n)| <= 2
  {
    assert Sum([1]) == 1 && Sum([2]) == 2;
    assert Sum([2, 1]) == 2 + Sum([1]) && Sum([2, 2]) == 2 + Sum([2]);
  }

  // ---------------------------------------------------------------------
  // Availability
  // ---------------------------------------------------------------------

  /** Python's `str.lower` on one character, for ASCII and the Latin-1
      capitals. */
  function LowerChar(c: char): (r: char)
    ensures 'A' <= c <= 'Z' ==> r as int == c as int + 32
    ensures !('A' <= c <= 'Z') && !('\U{C0}' <= c <= '\U{DE}') ==> r == c
  {
    if 'A' <= c <= 'Z' || ('\U{C0}' <= c <= '\U{DE}' && c != '\U{D7}') then (c as int + 32) as char else c
  }

  function Lower(s: string): (r: string)
    ensures |r| == |s|
  {
    seq(|s|, i requires 0 <= i < |s| => LowerChar(s[i]))
  }

  /** Lower-casing twice is lower-casing once. */
  lemma {:induction false} LowerIdempotent(s: string)
    ensures Lower(Lower(s)) == Lower(s)
  {
    assert forall i :: 0 <= i < |s| ==> LowerChar(LowerChar(s[i])) == LowerChar(s[i]);
  }

  /** A row names teacher `teacher`, the day `d` in any letter case, and a
      time whose text starts with the name of slot `h`. */
  predicate Matches(rec: FreeRecord, teacher: string, d: Week.DayIndex, h: Week.SlotIndex)
  {
    assert Week.IsDay(d) && Week.IsSlot(h);
    rec.teacher == teacher && Lower(rec.day) == Lower(Week.DayNames[d]) && Week.SlotNames[h] <= rec.time
  }

  /** The filter of `professor_esta_disponivel` over the rows. */
  function AnyMatch(rows: seq<FreeRecord>, teacher: string, d: Week.DayIndex, h: Week.SlotIndex): (r: bool)
    ensures r <==> exists i :: 0 <= i < |rows| && Matches(rows[i], teacher, d, h)
  {
    if rows == [] then false
    else if Matches(rows[0], teacher, d, h) then true
    else
      var r := AnyMatch(rows[1..], teacher, d, h);
      assert forall i :: 1 <= i < |rows| ==> rows[i] == rows[1..][i - 1];
      r
  }

  /** `professor_esta_disponivel`: every teacher is available while no
      availability table is loaded; otherwise exactly when some row
      matches. */
  function TeacherFree(av: Option<seq<FreeRecord>>, teacher: string, d: Week.DayIndex, h: Week.SlotIndex): (r: bool)
    ensures av.None? ==> r
    ensures av.Some? ==> (r <==> exists i :: 0 <= i < |av.value| && Matches(av.value[i], teacher, d, h))
  {
    av.None? || AnyMatch(av.value, teacher, d, h)
  }

  /** The day test ignores the letter case of the row's day. */
  lemma {:induction false} MatchesIgnoresCase(rec: FreeRecord, teacher: string, d: Week.DayIndex, h: Week.SlotIndex)
    ensures Matches(rec.(day := Lower(rec.day)), teacher, d, h) == Matches(rec, teacher, d, h)
  {
    LowerIdempotent(rec.day);
  }

  // ---------------------------------------------------------------------
  // Bookings by day
  // ---------------------------------------------------------------------

  /** The slots of the bookings on day `d`, in order. */
  function SlotsOn(ind: seq<Booking>, d: int): (r: seq<Week.SlotIndex>)
    ensures |r| <= |ind|
  {
    if ind == [] then []
    else (if ind[0].day == d then [ind[0].slot] else []) + SlotsOn(ind[1..], d)
  }

  lemma {:induction false} SlotsOnAppend(a: seq<Booking>, b: seq<Booking>, d: int)
    ensures SlotsOn(a + b, d) == SlotsOn(a, d) + SlotsOn(b, d)
    decreases |a|
  {
    if a == [] {
      assert a + b == b;
    } else {
      var h := if a[0].day == d then [a[0].slot] else [];
      assert (a + b)[0] == a[0] && (a + b)[1..] == a[1..] + b;
      SlotsOnAppend(a[1..], b, d);
      assert SlotsOn(a + b, d) == h + (SlotsOn(a[1..], d) + SlotsOn(b, d));
      assert h + (SlotsOn(a[1..], d) + SlotsOn(b, d)) == (h + SlotsOn(a[1..], d)) + SlotsOn(b, d);
    }
  }

  /** A day without slots holds no booking. */
  lemma {:induction false} SlotsOnEmpty(ind: seq<Booking>, d: int)
    requires SlotsOn(ind, d) == []
    ensures forall i :: 0 <= i < |ind| ==> ind[i].day != d
  {
    if ind != [] {
      SlotsOnEmpty(ind[1..], d);
      assert forall i :: 1 <= i < |ind| ==> ind[i] == ind[1..][i - 1];
    }
  }

  /** Every booking sits on one of the five days, so the day lists share
      out all of them. */
  lemma {:induction false} SlotsOnTotal(ind: seq<Booking>)
    ensures |SlotsOn(ind, 0)| + |SlotsOn(ind, 1)| + |SlotsOn(ind, 2)| + |SlotsOn(ind, 3)| + |SlotsOn(ind, 4)| == |ind|
  {
    if ind != [] {
      SlotsOnTotal(ind[1..]);
    }
  }

  /** A booking on day `d` puts its slot in the day's list. */
  lemma {:induction false} SlotsOnHas(ind: seq<Booking>, j: int)
    requires 0 <= j < |ind|
    ensures ind[j].slot in SlotsOn(ind, ind[j].day)
  {
    if j > 0 {
      SlotsOnHas(ind[1..], j - 1);
      assert ind[1..][j - 1] == ind[j];
    }
  }

  /** No two bookings share a day and a slot. */
  predicate NoClash(ind: seq<Booking>)
  {
    forall i, j :: 0 <= i < j < |ind| ==> ind[i].day != ind[j].day || ind[i].slot != ind[j].slot
  }

  /** When no day lists a slot twice, no two bookings clash. */
  lemma {:induction false} NoClashByDay(ind: seq<Booking>)
    requires forall d: Week.DayIndex :: NoDuplicates(SlotsOn(ind, d))
    ensures NoClash(ind)
  {
    if ind != [] {
      var rest := ind[1..];
      forall d: Week.DayIndex ensures NoDuplicates(SlotsOn(rest, d)) {
        var h := if ind[0].day == d then [ind[0].slot] else [];
        assert SlotsOn(ind, d) == h + SlotsOn(rest, d);
        assert forall k :: 0 <= k < |SlotsOn(rest, d)| ==> SlotsOn(rest, d)[k] == SlotsOn(ind, d)[|h| + k];
      }
      NoClashByDay(rest);
      forall j | 0 < j < |ind| ensures ind[0].day != ind[j].day || ind[0].slot != ind[j].slot {
        FirstNoClash(ind, j);
      }
      forall i, j | 0 < i < j < |ind| ensures ind[i].day != ind[j].day || ind[i].slot != ind[j].slot {
        assert rest[i - 1] == ind[i] && rest[j - 1] == ind[j];
      }
    }
  }

  lemma {:induction false} FirstNoClash(ind: seq<Booking>, j: int)
    requires 0 < j < |ind| && NoDuplicates(SlotsOn(ind, ind[0].day))
    ensures ind[0].day != ind[j].day || ind[0].slot != ind[j].slot
  {
    var rest := ind[1..];
    assert rest[j - 1] == ind[j];
    SlotsOnHas(rest, j - 1);
    var d := ind[0].day;
    var l := SlotsOn(rest, d);
    assert SlotsOn(ind, d) == [ind[0].slot] + l;
    forall k | 0 <= k < |l| ensures l[k] != ind[0].slot {
      assert SlotsOn(ind, d)[k + 1] == l[k] && SlotsOn(ind, d)[0] == ind[0].slot;
    }
  }
}
