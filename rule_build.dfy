/** The greedy construction of one individual of the rule-based optimiser
    (`encontrar_slot_seguido`, `alocar_dividido`, `alocar_aulas_por_regra`
    and `criar_individuo_otimizado`). Subjects are taken in table order;
    each load is split into blocks, and each block goes to the first day,
    Monday to Thursday (Friday too for a single lesson), whose first slots
    are free, starting at 18:50. One occupancy record is shared by all the
    subjects of the individual, so a day holds one block at most; a block
    that finds no day is dropped. */
module RuleBuild {
  import opened Wrappers
  import opened Counting
  import opened RuleData
  import Week

  /** `ocupacao`: the slots booked so far on each day, in booking order. */
  type Taken = map<Week.DayIndex, seq<Week.SlotIndex>>

  /** `ocupacao.get(dia, [])`. */
  function SlotsTaken(occ: Taken, d: Week.DayIndex): seq<Week.SlotIndex>
  {
    if d in occ then occ[d] else []
  }

  /** `dias_priorizados`: Monday to Thursday, and Friday for one lesson. */
  function SearchDays(q: int): (r: seq<Week.DayIndex>)
    ensures |r| == (if q == 1 then 5 else 4) && forall k :: 0 <= k < |r| ==> r[k] == k
  {
    if q == 1 then [0, 1, 2, 3, 4] else [0, 1, 2, 3]
  }

  // ---------------------------------------------------------------------
  // Finding a block
  // ---------------------------------------------------------------------

  /** What the inner loop of `encontrar_slot_seguido` collects from slot
      `i` on: the slots `i`, `i + 1`, ... while they are free, stopping at
      `q` and at the last slot. */
  function FreeFrom(t: seq<Week.SlotIndex>, q: int, i: nat): (r: seq<Week.SlotIndex>)
    ensures forall j :: 0 <= j < |r| ==> r[j] == i + j
    ensures r == [] || (i + |r| <= Week.NumSlots && i + |r| <= q)
    decreases Week.NumSlots - i
  {
    if i >= q || i >= Week.NumSlots || i in t then [] else [i] + FreeFrom(t, q, i + 1)
  }

  /** The first `q` slots of day `d` are free, and there are `q` slots. */
  predicate Fits(occ: Taken, d: Week.DayIndex, q: int)
  {
    0 <= q <= Week.NumSlots && forall h :: 0 <= h < q ==> h !in SlotsTaken(occ, d)
  }

  lemma {:induction false} FreeFromFull(t: seq<Week.SlotIndex>, q: int, i: nat)
    requires i <= q && i <= Week.NumSlots
    ensures |FreeFrom(t, q, i)| == q - i <==> q <= Week.NumSlots && forall h :: i <= h < q ==> h !in t
    decreases Week.NumSlots - i
  {
    if i < q && i < Week.NumSlots && i !in t {
      FreeFromFull(t, q, i + 1);
      assert FreeFrom(t, q, i) == [i] + FreeFrom(t, q, i + 1);
    } else if i < q && i < Week.NumSlots {
      assert FreeFrom(t, q, i) == [] && i in t;
    } else if i < q {
      assert FreeFrom(t, q, i) == [] && q > Week.NumSlots;
    }
  }

  /** The search over the days `days`, in order. */
  function SlotFrom(occ: Taken, q: int, days: seq<Week.DayIndex>): Option<(Week.DayIndex, seq<Week.SlotIndex>)>
  {
    if days == [] then None
    else
      var needed := FreeFrom(SlotsTaken(occ, days[0]), q, 0);
      if |needed| == q then Some((days[0], needed)) else SlotFrom(occ, q, days[1..])
  }

  /** `encontrar_slot_seguido(ocupacao, q)`: a day and its first `q`
      slots, or `None` for `(None, None)`. */
  function Slot(occ: Taken, q: int): Option<(Week.DayIndex, seq<Week.SlotIndex>)>
  {
    SlotFrom(occ, q, SearchDays(q))
  }

  lemma {:induction false} SlotFromSpec(occ: Taken, q: int, days: seq<Week.DayIndex>)
    ensures var r := SlotFrom(occ, q, days);
            (r.Some? <==> exists k :: 0 <= k < |days| && Fits(occ, days[k], q))
            && (r.Some? ==> exists k :: 0 <= k < |days| && days[k] == r.value.0 && Fits(occ, days[k], q)
                                        && (forall j :: 0 <= j < k ==> !Fits(occ, days[j], q)))
            && (r.Some? ==> |r.value.1| == q && forall j :: 0 <= j < q ==> r.value.1[j] == j)
  {
    if days != [] {
      var t := SlotsTaken(occ, days[0]);
      var needed := FreeFrom(t, q, 0);
      if q >= 0 {
        FreeFromFull(t, q, 0);
      }
      assert |needed| == q <==> Fits(occ, days[0], q);
      SlotFromSpec(occ, q, days[1..]);
      assert forall k :: 1 <= k < |days| ==> days[k] == days[1..][k - 1];
      if |needed| != q && SlotFrom(occ, q, days[1..]).Some? {
        var k :| 0 <= k < |days[1..]| && days[1..][k] == SlotFrom(occ, q, days[1..]).value.0 && Fits(occ, days[1..][k], q)
                 && (forall j :: 0 <= j < k ==> !Fits(occ, days[1..][j], q));
        assert days[k + 1] == days[1..][k];
      }
    }
  }

  /** `encontrar_slot_seguido` returns the first day of the search whose
      first `q` slots are free, with those slots; Friday only for a single
      lesson; and nothing when no searched day has them free, which is
      always the case for more than four lessons. */
  lemma {:induction false} SlotSpec(occ: Taken, q: int)
    ensures var r := Slot(occ, q);
            (r.Some? <==> exists d: Week.DayIndex :: (d < 4 || q == 1) && Fits(occ, d, q))
            && (r.Some? ==> var d := r.value.0;
                            Fits(occ, d, q) && (d == 4 ==> q == 1)
                            && (forall e: Week.DayIndex :: e < d ==> !Fits(occ, e, q))
                            && |r.value.1| == q && forall j :: 0 <= j < q ==> r.value.1[j] == j)
            && (q > Week.NumSlots ==> r.None?)
  {
    var days := SearchDays(q);
    SlotFromSpec(occ, q, days);
    var r := Slot(occ, q);
    if exists d: Week.DayIndex :: (d < 4 || q == 1) && Fits(occ, d, q) {
      var d: Week.DayIndex :| (d < 4 || q == 1) && Fits(occ, d, q);
      assert days[d] == d;
    }
    if r.Some? {
      var k :| 0 <= k < |days| && days[k] == r.value.0 && Fits(occ, days[k], q)
               && (forall j :: 0 <= j < k ==> !Fits(occ, days[j], q));
      assert k == r.value.0;
      forall e: Week.DayIndex | e < r.value.0 ensures !Fits(occ, e, q) {
        assert days[e] == e;
      }
    }
  }

  // ---------------------------------------------------------------------
  // Allocating blocks
  // ---------------------------------------------------------------------

  /** Records slots `hs` as booked on day `d`. */
  function Book(occ: Taken, d: Week.DayIndex, hs: seq<Week.SlotIndex>): Taken
  {
    occ[d := SlotsTaken(occ, d) + hs]
  }

  /** What every gene of one subject shares: the arguments of its
      `criar_gene` calls other than day, slot and number. */
  datatype Offer = Offer(subject: string, name: string, cohort: string, teacher: string, room: string)

  function Make(o: Offer, d: Week.DayIndex, h: Week.SlotIndex, num: int): Booking
  {
    Booking(o.subject, o.name, o.cohort, o.teacher, o.room, d, h, num)
  }

  /** The genes of one block on day `d`, numbered from `num`. */
  function BlockGenes(o: Offer, d: Week.DayIndex, hs: seq<Week.SlotIndex>, num: int): (r: seq<Booking>)
    ensures |r| == |hs|
  {
    seq(|hs|, j requires 0 <= j < |hs| => Make(o, d, hs[j], num + j))
  }

  /** One block of `alocar_dividido`: `q` lessons placed where
      `encontrar_slot_seguido` finds room and booked, numbered from `num`;
      nothing happens when there is no room. The genes, then the new
      occupancy. */
  function Place(o: Offer, occ: Taken, q: int, num: int): (seq<Booking>, Taken)
  {
    var s := Slot(occ, q);
    if s.None? || s.value.1 == [] then ([], occ)
    else (BlockGenes(o, s.value.0, s.value.1, num), Book(occ, s.value.0, s.value.1))
  }

  /** What placing one block does, given the occupancy, the block's size
      and the number of its first lesson: the genes made and the new
      occupancy. */
  type Step = (Taken, int, int) -> (seq<Booking>, Taken)

  function PlaceStep(o: Offer): Step
  {
    (occ, q, num) => Place(o, occ, q, num)
  }

  /** The loop of `alocar_dividido` with the block step `step`: the blocks
      placed in turn over one occupancy, the numbering running on from
      block to block. */
  function Allot(step: Step, blocks: seq<int>, occ: Taken, num: int): (seq<Booking>, Taken)
    decreases |blocks|
  {
    if blocks == [] then ([], occ)
    else
      var p := step(occ, blocks[0], num);
      var rest := Allot(step, blocks[1..], p.1, num + |p.0|);
      (p.0 + rest.0, rest.1)
  }

  /** `alocar_dividido`, numbering from `num`. */
  function Divided(o: Offer, blocks: seq<int>, occ: Taken, num: int): (seq<Booking>, Taken)
  {
    Allot(PlaceStep(o), blocks, occ, num)
  }

  /** The first teacher of the table who teaches `code`. */
  function FirstTaught(ls: seq<Lecturer>, code: string): (r: Option<string>)
    ensures r.None? <==> forall i :: 0 <= i < |ls| ==> ls[i].subject != code
    ensures r.Some? ==> exists i :: 0 <= i < |ls| && ls[i].subject == code && ls[i].code == r.value
                                    && forall j :: 0 <= j < i ==> ls[j].subject != code
  {
    if ls == [] then None
    else if ls[0].subject == code then Some(ls[0].code)
    else
      var r := FirstTaught(ls[1..], code);
      assert forall j :: 1 <= j < |ls| ==> ls[j] == ls[1..][j - 1];
      r
  }

  /** The teacher and room `alocar_aulas_por_regra` gives subject `c`: the
      first teacher of the subject, else the first of the table, and the
      first room; `None` for the `IndexError` an empty teacher or room
      table raises. */
  function OfferFor(t: Tables, c: Course, cohort: string): (r: Option<Offer>)
    ensures r.None? <==> |t.lecturers| == 0 || |t.halls| == 0
    ensures r.Some? ==> r.value.subject == c.code && r.value.name == c.name && r.value.cohort == cohort
                        && r.value.room == t.halls[0].code
                        && r.value.teacher == match FirstTaught(t.lecturers, c.code)
                                              case Some(p) => p
                                              case None => t.lecturers[0].code
  {
    if |t.lecturers| == 0 || |t.halls| == 0 then None
    else
      var teacher := match FirstTaught(t.lecturers, c.code) case Some(p) => p case None => t.lecturers[0].code;
      Some(Offer(c.code, c.name, cohort, teacher, t.halls[0].code))
  }

  /** `alocar_aulas_por_regra`: the blocks of the subject's load allocated
      from lesson number 1. The branch for two lessons and the one for any
      other load are the block allocation with the single block `[2]` and
      `[1]`. */
  function Allocation(t: Tables, c: Course, cohort: string, occ: Taken): Option<(seq<Booking>, Taken)>
  {
    match OfferFor(t, c, cohort)
    case None => None
    case Some(o) => Some(Divided(o, Blocks(c.hours), occ, 1))
  }

  /** The subjects `courses` allocated in order over one shared occupancy. */
  function Built(t: Tables, courses: seq<Course>, occ: Taken): Option<(seq<Booking>, Taken)>
    decreases |courses|
  {
    if courses == [] then Some(([], occ))
    else
      match Allocation(t, courses[0], Cohort, occ)
      case None => None
      case Some(a) =>
        match Built(t, courses[1..], a.1)
        case None => None
        case Some(b) => Some((a.0 + b.0, b.1))
  }

  /** `criar_individuo_otimizado`: every subject of the table allocated for
      the cohort, from an empty occupancy. */
  function Individual(t: Tables): Option<seq<Booking>>
  {
    match Built(t, t.courses, map[])
    case None => None
    case Some(b) => Some(b.0)
  }

  // ---------------------------------------------------------------------
  // Properties of the allocation
  // ---------------------------------------------------------------------

  /** Building raises exactly when there is a subject and the teacher or
      the room table is empty. */
  lemma {:induction false} BuiltRaises(t: Tables, courses: seq<Course>, occ: Taken)
    ensures Built(t, courses, occ).None? <==> |courses| > 0 && (|t.lecturers| == 0 || |t.halls| == 0)
    decreases |courses|
  {
    if courses != [] {
      match Allocation(t, courses[0], Cohort, occ)
      case None =>
      case Some(a) => BuiltRaises(t, courses[1..], a.1);
    }
  }

  lemma {:induction false} IndividualRaises(t: Tables)
    ensures Individual(t).None? <==> |t.courses| > 0 && (|t.lecturers| == 0 || |t.halls| == 0)
  {
    BuiltRaises(t, t.courses, map[]);
  }

  /** Occupancy `after` is `before` with the slots of `gs` appended, day
      by day. */
  predicate Records(before: Taken, after: Taken, gs: seq<Booking>)
  {
    forall d: Week.DayIndex :: SlotsTaken(after, d) == SlotsTaken(before, d) + SlotsOn(gs, d)
  }

  /** Gene `i` of `gs` carries the offer `o` and the number `num + i`. */
  predicate Numbered(o: Offer, gs: seq<Booking>, num: int)
  {
    forall i :: 0 <= i < |gs| ==> gs[i] == Make(o, gs[i].day, gs[i].slot, num + i)
  }

  /** The day lists the allocation can leave: a day is empty or holds one
      block from 18:50, of one lesson or (Friday excepted) two. */
  predicate DayShape(s: seq<Week.SlotIndex>, d: Week.DayIndex)
  {
    s == [] || s == [0] || (d != 4 && s == [0, 1])
  }

  predicate Shaped(occ: Taken)
  {
    forall d: Week.DayIndex :: DayShape(SlotsTaken(occ, d), d)
  }

  lemma {:induction false} RecordsAppend(a: Taken, b: Taken, c: Taken, x: seq<Booking>, y: seq<Booking>)
    requires Records(a, b, x) && Records(b, c, y)
    ensures Records(a, c, x + y)
  {
    forall d: Week.DayIndex ensures SlotsTaken(c, d) == SlotsTaken(a, d) + SlotsOn(x + y, d) {
      RecordsAppendOn(a, b, c, x, y, d);
    }
  }

  lemma {:induction false} RecordsAppendOn(a: Taken, b: Taken, c: Taken, x: seq<Booking>, y: seq<Booking>, d: Week.DayIndex)
    requires Records(a, b, x) && Records(b, c, y)
    ensures SlotsTaken(c, d) == SlotsTaken(a, d) + SlotsOn(x + y, d)
  {
    SlotsOnAppend(x, y, d);
  }

  lemma {:induction false} NumberedAppend(o: Offer, a: seq<Booking>, b: seq<Booking>, num: int)
    requires Numbered(o, a, num) && Numbered(o, b, num + |a|)
    ensures Numbered(o, a + b, num)
  {
    forall i | 0 <= i < |a + b| ensures (a + b)[i] == Make(o, (a + b)[i].day, (a + b)[i].slot, num + i) {
      if i >= |a| {
        assert (a + b)[i] == b[i - |a|];
      }
    }
  }

  // One block

  /** One block carries the offer and the numbers from `num` on. */
  lemma {:induction false} PlaceNumbered(o: Offer, occ: Taken, q: int, num: int)
    ensures Numbered(o, Place(o, occ, q, num).0, num)
  {
  }

  /** One block books exactly the slots of its genes. */
  lemma {:induction false} PlaceBooks(o: Offer, occ: Taken, q: int, num: int)
    ensures Records(occ, Place(o, occ, q, num).1, Place(o, occ, q, num).0)
  {
    var s := Slot(occ, q);
    if s.Some? && s.value.1 != [] {
      BookRecords(o, occ, s.value.0, s.value.1, num);
    }
  }

  lemma {:induction false} BookRecords(o: Offer, occ: Taken, d: Week.DayIndex, hs: seq<Week.SlotIndex>, num: int)
    ensures Records(occ, Book(occ, d, hs), BlockGenes(o, d, hs, num))
  {
    forall e: Week.DayIndex ensures SlotsOn(BlockGenes(o, d, hs, num), e) == if e == d then hs else [] {
      BlockSlots(o, d, hs, num, e);
    }
  }

  /** The slots of a block on each day. */
  lemma {:induction false} BlockSlots(o: Offer, d: Week.DayIndex, hs: seq<Week.SlotIndex>, num: int, e: Week.DayIndex)
    ensures SlotsOn(BlockGenes(o, d, hs, num), e) == if e == d then hs else []
    decreases |hs|
  {
    var g := BlockGenes(o, d, hs, num);
    if hs != [] {
      BlockSlots(o, d, hs[1..], num + 1, e);
      assert g[1..] == BlockGenes(o, d, hs[1..], num + 1);
      assert hs == [hs[0]] + hs[1..];
    } else {
      assert g == [];
    }
  }

  /** One block makes at most `q` genes. */
  lemma {:induction false} PlaceCount(o: Offer, occ: Taken, q: int, num: int)
    requires q >= 0
    ensures |Place(o, occ, q, num).0| <= q
  {
    SlotSpec(occ, q);
  }

  /** A block of one or two lessons goes to an empty day, so it keeps every
      day in shape. */
  lemma {:induction false} PlaceShaped(o: Offer, occ: Taken, q: int, num: int)
    requires Shaped(occ) && (q == 1 || q == 2)
    ensures Shaped(Place(o, occ, q, num).1)
  {
    var s := Slot(occ, q);
    if s.Some? && s.value.1 != [] {
      SlotSpec(occ, q);
      var d, hs := s.value.0, s.value.1;
      assert 0 !in SlotsTaken(occ, d);
      assert SlotsTaken(occ, d) == [];
      assert hs == if q == 1 then [0] else [0, 1];
      forall e: Week.DayIndex ensures DayShape(SlotsTaken(Book(occ, d, hs), e), e) {
        if e == d {
          assert SlotsTaken(Book(occ, d, hs), e) == hs;
        } else {
          assert SlotsTaken(Book(occ, d, hs), e) == SlotsTaken(occ, e);
        }
      }
    }
  }

  // The blocks of one subject, for any block step

  lemma {:induction false} AllotBooks(step: Step, blocks: seq<int>, occ: Taken, num: int)
    requires forall a, q, n :: Records(a, step(a, q, n).1, step(a, q, n).0)
    ensures Records(occ, Allot(step, blocks, occ, num).1, Allot(step, blocks, occ, num).0)
    decreases |blocks|
  {
    if blocks != [] {
      var p := step(occ, blocks[0], num);
      var rest := Allot(step, blocks[1..], p.1, num + |p.0|);
      AllotBooks(step, blocks[1..], p.1, num + |p.0|);
      RecordsAppend(occ, p.1, rest.1, p.0, rest.0);
    }
  }

  lemma {:induction false} AllotNumbered(o: Offer, step: Step, blocks: seq<int>, occ: Taken, num: int)
    requires forall a, q, n :: Numbered(o, step(a, q, n).0, n)
    ensures Numbered(o, Allot(step, blocks, occ, num).0, num)
    decreases |blocks|
  {
    if blocks != [] {
      var p := step(occ, blocks[0], num);
      var rest := Allot(step, blocks[1..], p.1, num + |p.0|);
      AllotNumbered(o, step, blocks[1..], p.1, num + |p.0|);
      NumberedAppend(o, p.0, rest.0, num);
    }
  }

  lemma {:induction false} AllotCount(step: Step, blocks: seq<int>, occ: Taken, num: int)
    requires forall a, q, n :: q >= 0 ==> |step(a, q, n).0| <= q
    requires forall k :: 0 <= k < |blocks| ==> blocks[k] >= 0
    ensures |Allot(step, blocks, occ, num).0| <= Sum(blocks)
    decreases |blocks|
  {
    if blocks != [] {
      var p := step(occ, blocks[0], num);
      assert forall k :: 1 <= k < |blocks| ==> blocks[1..][k - 1] == blocks[k];
      AllotCount(step, blocks[1..], p.1, num + |p.0|);
    }
  }

  lemma {:induction false} AllotShaped(step: Step, blocks: seq<int>, occ: Taken, num: int)
    requires forall a, q, n :: Shaped(a) && (q == 1 || q == 2) ==> Shaped(step(a, q, n).1)
    requires forall k :: 0 <= k < |blocks| ==> blocks[k] == 1 || blocks[k] == 2
    requires Shaped(occ)
    ensures Shaped(Allot(step, blocks, occ, num).1)
    decreases |blocks|
  {
    if blocks != [] {
      var p := step(occ, blocks[0], num);
      assert forall k :: 1 <= k < |blocks| ==> blocks[1..][k - 1] == blocks[k];
      AllotShaped(step, blocks[1..], p.1, num + |p.0|);
    }
  }

  // The blocks of one subject

  /** The new occupancy is the old one with exactly the slots of the genes
      appended, day by day. */
  lemma {:induction false} DividedBooks(o: Offer, blocks: seq<int>, occ: Taken, num: int)
    ensures Records(occ, Divided(o, blocks, occ, num).1, Divided(o, blocks, occ, num).0)
  {
    var step := PlaceStep(o);
    forall a, q, n ensures Records(a, step(a, q, n).1, step(a, q, n).0) {
      PlaceBooks(o, a, q, n);
    }
    AllotBooks(step, blocks, occ, num);
  }

  /** Every gene carries the subject's offer, numbered on from `num`. */
  lemma {:induction false} DividedNumbers(o: Offer, blocks: seq<int>, occ: Taken, num: int)
    ensures Numbered(o, Divided(o, blocks, occ, num).0, num)
  {
    var step := PlaceStep(o);
    forall a, q, n ensures Numbered(o, step(a, q, n).0, n) {
      PlaceNumbered(o, a, q, n);
    }
    AllotNumbered(o, step, blocks, occ, num);
  }

  /** No more genes are made than the blocks ask for. */
  lemma {:induction false} DividedCount(o: Offer, blocks: seq<int>, occ: Taken, num: int)
    requires forall k :: 0 <= k < |blocks| ==> blocks[k] >= 0
    ensures |Divided(o, blocks, occ, num).0| <= Sum(blocks)
  {
    var step := PlaceStep(o);
    forall a, q, n | q >= 0 ensures |step(a, q, n).0| <= q {
      PlaceCount(o, a, q, n);
    }
    AllotCount(step, blocks, occ, num);
  }

  /** Blocks of one or two lessons keep every day in shape. */
  lemma {:induction false} DividedShaped(o: Offer, blocks: seq<int>, occ: Taken, num: int)
    requires forall k :: 0 <= k < |blocks| ==> blocks[k] == 1 || blocks[k] == 2
    requires Shaped(occ)
    ensures Shaped(Divided(o, blocks, occ, num).1)
  {
    var step := PlaceStep(o);
    forall a, q, n | Shaped(a) && (q == 1 || q == 2) ensures Shaped(step(a, q, n).1) {
      PlaceShaped(o, a, q, n);
    }
    AllotShaped(step, blocks, occ, num);
  }

  // The subjects of an individual

  /** `g` is one of the lessons of subject `c`: its offer, and a number from
      1 up to the lessons the subject's rule asks for. */
  predicate LessonOf(t: Tables, c: Course, g: Booking)
  {
    match OfferFor(t, c, Cohort)
    case None => false
    case Some(o) => g == Make(o, g.day, g.slot, g.number) && 1 <= g.number <= Sum(Blocks(c.hours))
  }

  /** `g` is a lesson of one of the subjects `cs`. */
  predicate LessonIn(t: Tables, cs: seq<Course>, g: Booking)
  {
    exists k :: 0 <= k < |cs| && LessonOf(t, cs[k], g)
  }

  /** Every gene of `gs` is a lesson of one of the subjects `cs`. */
  predicate Taught(t: Tables, cs: seq<Course>, gs: seq<Booking>)
  {
    forall i :: 0 <= i < |gs| ==> LessonIn(t, cs, gs[i])
  }

  /** One subject's allocation books exactly its genes' slots, keeps every
      day in shape, and makes lessons of that subject only. */
  lemma {:induction false} AllocationLessons(t: Tables, c: Course, occ: Taken)
    requires Allocation(t, c, Cohort, occ).Some?
    ensures var a := Allocation(t, c, Cohort, occ).value;
            Records(occ, a.1, a.0) && (Shaped(occ) ==> Shaped(a.1))
            && forall i :: 0 <= i < |a.0| ==> LessonOf(t, c, a.0[i])
  {
    var o := OfferFor(t, c, Cohort).value;
    var blocks := Blocks(c.hours);
    BlocksFollowRule(c.hours);
    DividedBooks(o, blocks, occ, 1);
    DividedNumbers(o, blocks, occ, 1);
    DividedCount(o, blocks, occ, 1);
    if Shaped(occ) {
      DividedShaped(o, blocks, occ, 1);
    }
  }

  lemma {:induction false} TaughtAppend(t: Tables, cs: seq<Course>, a: seq<Booking>, b: seq<Booking>)
    requires cs != []
    requires forall i :: 0 <= i < |a| ==> LessonOf(t, cs[0], a[i])
    requires Taught(t, cs[1..], b)
    ensures Taught(t, cs, a + b)
  {
    forall i | 0 <= i < |a + b| ensures LessonIn(t, cs, (a + b)[i]) {
      if i < |a| {
        assert (a + b)[i] == a[i];
        assert LessonOf(t, cs[0], (a + b)[i]);
      } else {
        assert (a + b)[i] == b[i - |a|];
        assert LessonIn(t, cs[1..], b[i - |a|]);
        var k :| 0 <= k < |cs[1..]| && LessonOf(t, cs[1..][k], b[i - |a|]);
        assert cs[1..][k] == cs[k + 1];
        assert LessonOf(t, cs[k + 1], (a + b)[i]);
      }
    }
  }

  /** Building the subjects `cs` books exactly the slots of the genes made,
      keeps every day in shape, and makes only lessons of those subjects. */
  lemma {:induction false} BuiltLessons(t: Tables, cs: seq<Course>, occ: Taken)
    requires Built(t, cs, occ).Some?
    ensures var b := Built(t, cs, occ).value;
            Records(occ, b.1, b.0) && (Shaped(occ) ==> Shaped(b.1)) && Taught(t, cs, b.0)
    decreases |cs|
  {
    if cs != [] {
      var a := Allocation(t, cs[0], Cohort, occ).value;
      var b := Built(t, cs[1..], a.1).value;
      AllocationLessons(t, cs[0], occ);
      BuiltLessons(t, cs[1..], a.1);
      RecordsAppend(occ, a.1, b.1, a.0, b.0);
      TaughtAppend(t, cs, a.0, b.0);
    }
  }

  /** `criar_individuo_otimizado` builds a timetable in which every day is
      empty or holds one block from 18:50 (two lessons at most, one on
      Friday), so no two lessons share a day and a slot and there are at
      most nine of them; every lesson is one of a table subject's, for the
      cohort, in the first room. */
  lemma {:induction false} IndividualShape(t: Tables)
    requires Individual(t).Some?
    ensures var ind := Individual(t).value;
            (forall d: Week.DayIndex :: DayShape(SlotsOn(ind, d), d))
            && NoClash(ind) && |ind| <= 9 && Taught(t, t.courses, ind)
            && forall i :: 0 <= i < |ind| ==> ind[i].cohort == Cohort && |t.halls| > 0 && ind[i].room == t.halls[0].code
  {
    var b := Built(t, t.courses, map[]).value;
    var ind := b.0;
    BuiltLessons(t, t.courses, map[]);
    assert Shaped(map[]);
    RecordedShape(b.1, ind);
    NoClashByDay(ind);
    ShapeCount(ind);
    forall i | 0 <= i < |ind| ensures ind[i].cohort == Cohort && |t.halls| > 0 && ind[i].room == t.halls[0].code {
      assert LessonIn(t, t.courses, ind[i]);
      var k :| 0 <= k < |t.courses| && LessonOf(t, t.courses[k], ind[i]);
    }
  }

  /** The genes booked into an empty occupancy have its day lists. */
  lemma {:induction false} RecordedShape(occ: Taken, ind: seq<Booking>)
    requires Shaped(occ) && Records(map[], occ, ind)
    ensures forall d: Week.DayIndex :: DayShape(SlotsOn(ind, d), d) && NoDuplicates(SlotsOn(ind, d))
  {
    forall d: Week.DayIndex ensures DayShape(SlotsOn(ind, d), d) && NoDuplicates(SlotsOn(ind, d)) {
      assert SlotsTaken(occ, d) == SlotsOn(ind, d);
      DayShapeSize(SlotsOn(ind, d), d);
    }
  }

  /** A day in shape lists no slot twice and holds two lessons at most, one
      on Friday. */
  lemma {:induction false} DayShapeSize(s: seq<Week.SlotIndex>, d: Week.DayIndex)
    requires DayShape(s, d)
    ensures NoDuplicates(s) && |s| <= (if d == 4 then 1 else 2)
  {
  }

  /** Days in shape hold at most nine lessons. */
  lemma {:induction false} ShapeCount(ind: seq<Booking>)
    requires forall d: Week.DayIndex :: DayShape(SlotsOn(ind, d), d)
    ensures |ind| <= 9
  {
    SlotsOnTotal(ind);
    DayShapeSize(SlotsOn(ind, 0), 0);
    DayShapeSize(SlotsOn(ind, 1), 1);
    DayShapeSize(SlotsOn(ind, 2), 2);
    DayShapeSize(SlotsOn(ind, 3), 3);
    DayShapeSize(SlotsOn(ind, 4), 4);
  }
}
