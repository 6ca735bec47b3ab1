/** The allocation of the rule-based optimiser as the source runs it: one
    occupancy dictionary shared by every subject of the individual and
    updated slot by slot, the genes appended in loops. Each method is
    proved to compute what the functions of `RuleBuild` describe, so the
    properties proved there hold of what these methods build. */
module RuleAlloc {
  import opened Wrappers
  import opened RuleData
  import opened RuleBuild
  import Week

  /** `ocupacao`: the slots booked so far on each day. */
  class Occupancy {
    var taken: Taken

    constructor ()
      ensures taken == map[]
    {
      taken := map[];
    }

    /** `if dia not in ocupacao: ocupacao[dia] = []`, then
        `ocupacao[dia].append(horario)`. */
    method Reserve(d: Week.DayIndex, h: Week.SlotIndex)
      modifies this
      ensures taken == Book(old(taken), d, [h])
    {
      if d !in taken {
        taken := taken[d := []];
      }
      taken := taken[d := taken[d] + [h]];
    }
  }

  /** One turn of the inner loop of `encontrar_slot_seguido`. */
  lemma {:induction false} FreeFromNext(busy: seq<Week.SlotIndex>, q: int, i: nat, needed: seq<Week.SlotIndex>)
    requires i < q
    ensures i >= Week.NumSlots ==> FreeFrom(busy, q, i) == FreeFrom(busy, q, i + 1) == []
    ensures i < Week.NumSlots && i in busy ==> FreeFrom(busy, q, i) == []
    ensures i < Week.NumSlots && i !in busy ==> needed + FreeFrom(busy, q, i) == (needed + [i]) + FreeFrom(busy, q, i + 1)
  {
    if i < Week.NumSlots && i !in busy {
      assert FreeFrom(busy, q, i) == [i] + FreeFrom(busy, q, i + 1);
      assert needed + ([i] + FreeFrom(busy, q, i + 1)) == (needed + [i]) + FreeFrom(busy, q, i + 1);
    }
  }

  /** The inner loop of `encontrar_slot_seguido`: the slots from 18:50
      on, collected while free, up to `q`. */
  method FreeRun(busy: seq<Week.SlotIndex>, q: int) returns (needed: seq<Week.SlotIndex>)
    ensures needed == FreeFrom(busy, q, 0)
  {
    needed := [];
    var i: nat := 0;
    while i < q
      invariant needed + FreeFrom(busy, q, i) == FreeFrom(busy, q, 0)
    {
      FreeFromNext(busy, q, i, needed);
      if i < Week.NumSlots {
        if i !in busy {
          needed := needed + [i];
        } else {
          break;
        }
      }
      i := i + 1;
    }
    assert needed + [] == needed;
  }

  /** `encontrar_slot_seguido`: the days of the search in order; the first
      one whose free run from 18:50 reaches `q` slots is the answer. */
  method FindSlot(occ: Taken, q: int) returns (r: Option<(Week.DayIndex, seq<Week.SlotIndex>)>)
    ensures r == Slot(occ, q)
  {
    var days := SearchDays(q);
    var k := 0;
    while k < |days|
      invariant 0 <= k <= |days|
      invariant SlotFrom(occ, q, days[k..]) == Slot(occ, q)
    {
      var needed := FreeRun(SlotsTaken(occ, days[k]), q);
      assert days[k..][0] == days[k] && days[k..][1..] == days[k + 1..];
      if |needed| == q {
        return Some((days[k], needed));
      }
      k := k + 1;
    }
    return None;
  }

  /** What the slots of a block before `j` book on day `d`: nothing yet
      when `j` is 0. */
  function BookedSoFar(occ: Taken, d: Week.DayIndex, hs: seq<Week.SlotIndex>, j: nat): Taken
    requires j <= |hs|
  {
    if j == 0 then occ else Book(occ, d, hs[..j])
  }

  /** Booking a block slot by slot books the whole block: booking slot
      `j` on top of the slots before it books the slots up to `j`. */
  lemma {:induction false} BookNext(occ: Taken, d: Week.DayIndex, hs: seq<Week.SlotIndex>, j: nat)
    requires j < |hs|
    ensures Book(BookedSoFar(occ, d, hs, j), d, [hs[j]]) == Book(occ, d, hs[..j + 1])
  {
    assert hs[..j + 1] == hs[..j] + [hs[j]];
    if j == 0 {
      assert hs[..1] == [hs[0]];
    } else {
      assert (SlotsTaken(occ, d) + hs[..j]) + [hs[j]] == SlotsTaken(occ, d) + hs[..j + 1];
    }
  }

  /** One more slot of the block makes one more gene, numbered next. */
  lemma {:induction false} BlockGenesNext(o: Offer, d: Week.DayIndex, hs: seq<Week.SlotIndex>, j: nat, num: int)
    requires j < |hs|
    ensures BlockGenes(o, d, hs[..j + 1], num) == BlockGenes(o, d, hs[..j], num) + [Make(o, d, hs[j], num + j)]
  {
    var a := BlockGenes(o, d, hs[..j + 1], num);
    var b := BlockGenes(o, d, hs[..j], num) + [Make(o, d, hs[j], num + j)];
    assert |a| == |b|;
    forall i | 0 <= i < |a| ensures a[i] == b[i] {
      if i < j {
        assert hs[..j + 1][i] == hs[..j][i];
      }
    }
  }

  /** The inner loop of one block of `alocar_dividido`: one gene per slot
      `hs` of day `d`, numbered on from `num`, each slot booked as its
      gene is made. */
  method BookBlock(o: Offer, d: Week.DayIndex, hs: seq<Week.SlotIndex>, occ: Occupancy, num: int) returns (genes: seq<Booking>)
    requires hs != []
    modifies occ
    ensures genes == BlockGenes(o, d, hs, num)
    ensures occ.taken == Book(old(occ.taken), d, hs)
  {
    genes := [];
    ghost var start := occ.taken;
    for j := 0 to |hs|
      invariant genes == BlockGenes(o, d, hs[..j], num)
      invariant occ.taken == BookedSoFar(start, d, hs, j)
    {
      BlockGenesNext(o, d, hs, j, num);
      BookNext(start, d, hs, j);
      genes := genes + [Make(o, d, hs[j], num + j)];
      occ.Reserve(d, hs[j]);
    }
    assert hs[..|hs|] == hs;
  }

  /** One block of the loop of `alocar_dividido`: find room for `q`
      lessons, then make and book one gene per slot found, numbering on
      from `num`. */
  method AllocateBlock(o: Offer, q: int, occ: Occupancy, num: int) returns (genes: seq<Booking>)
    modifies occ
    ensures (genes, occ.taken) == PlaceStep(o)(old(occ.taken), q, num)
  {
    var s := FindSlot(occ.taken, q);
    genes := [];
    if s.Some? && s.value.1 != [] {
      genes := BookBlock(o, s.value.0, s.value.1, occ, num);
    }
  }

  /** What the block allocation with step `step` ends with once the
      blocks before `k` are placed: `genes` followed by the genes of the
      rest, and the occupancy the rest leaves. */
  function Ahead(step: Step, genes: seq<Booking>, blocks: seq<int>, k: int, occ: Taken, num: int): (seq<Booking>, Taken)
    requires 0 <= k <= |blocks|
  {
    var rest := Allot(step, blocks[k..], occ, num);
    (genes + rest.0, rest.1)
  }

  /** Placing block `k`, which makes genes `g` and leaves occupancy
      `left`, moves its genes from what is to come to what is placed:
      `placed` genes so far, numbering on from `next`. */
  lemma {:induction false} AheadNext(step: Step, genes: seq<Booking>, blocks: seq<int>, k: int, occ: Taken, num: int,
                                     g: seq<Booking>, left: Taken, placed: seq<Booking>, next: int)
    requires 0 <= k < |blocks| && step(occ, blocks[k], num) == (g, left)
    requires placed == genes + g && next == num + |g|
    ensures Ahead(step, genes, blocks, k, occ, num) == Ahead(step, placed, blocks, k + 1, left, next)
  {
    assert blocks[k..][0] == blocks[k] && blocks[k..][1..] == blocks[k + 1..];
    var rest := Allot(step, blocks[k + 1..], left, num + |g|);
    assert Allot(step, blocks[k..], occ, num) == (g + rest.0, rest.1);
    assert genes + (g + rest.0) == (genes + g) + rest.0;
  }

  /** `alocar_dividido`: the blocks `blocks` in turn over the shared
      occupancy, numbered from 1. */
  method AllocateDivided(o: Offer, blocks: seq<int>, occ: Occupancy) returns (genes: seq<Booking>)
    modifies occ
    ensures (genes, occ.taken) == Divided(o, blocks, old(occ.taken), 1)
  {
    genes := [];
    var num := 1;
    ghost var step := PlaceStep(o);
    ghost var want := Allot(step, blocks, occ.taken, 1);
    assert blocks[0..] == blocks;
    assert [] + want.0 == want.0;
    for k := 0 to |blocks|
      invariant want == Ahead(step, genes, blocks, k, occ.taken, num)
    {
      ghost var (before, sofar, from) := (occ.taken, genes, num);
      var g := AllocateBlock(o, blocks[k], occ, num);
      genes := genes + g;
      num := num + |g|;
      AheadNext(step, sofar, blocks, k, before, from, g, occ.taken, genes, num);
    }
    assert blocks[|blocks|..] == [];
    assert genes + [] == genes;
  }

  /** A single block is placed as the block allocation places it. */
  lemma {:induction false} DividedSingle(o: Offer, q: int, occ: Taken)
    ensures Divided(o, [q], occ, 1) == PlaceStep(o)(occ, q, 1)
  {
    var p := PlaceStep(o)(occ, q, 1);
    var rest := Allot(PlaceStep(o), [q][1..], p.1, 1 + |p.0|);
    assert rest == ([], p.1);
    assert Allot(PlaceStep(o), [q], occ, 1) == (p.0 + rest.0, rest.1);
    assert p.0 + [] == p.0;
  }

  /** `alocar_aulas_por_regra`: the teacher and room of the subject, then
      one block of two lessons, the blocks 2 + 1 or 2 + 2, or one lesson,
      by load. `None` for the `IndexError` of an empty teacher or room
      table, which leaves the occupancy as it was. */
  method AllocateByRule(t: Tables, c: Course, cohort: string, occ: Occupancy) returns (r: Option<seq<Booking>>)
    modifies occ
    ensures match Allocation(t, c, cohort, old(occ.taken))
            case None => r.None? && occ.taken == old(occ.taken)
            case Some(a) => r == Some(a.0) && occ.taken == a.1
  {
    if |t.lecturers| == 0 || |t.halls| == 0 {
      return None;
    }
    var teacher := match FirstTaught(t.lecturers, c.code) case Some(p) => p case None => t.lecturers[0].code;
    var o := Offer(c.code, c.name, cohort, teacher, t.halls[0].code);
    ghost var start := occ.taken;
    var genes;
    if c.hours == 2 {
      DividedSingle(o, 2, start);
      genes := AllocateBlock(o, 2, occ, 1);
    } else if c.hours == 3 {
      genes := AllocateDivided(o, [2, 1], occ);
    } else if c.hours == 4 {
      genes := AllocateDivided(o, [2, 2], occ);
    } else {
      DividedSingle(o, 1, start);
      genes := AllocateBlock(o, 1, occ, 1);
    }
    r := Some(genes);
  }

  /** What is still to come once the subjects before `k` are built:
      `ind` followed by the genes of the rest, or the exception. */
  function Pending(ind: seq<Booking>, rest: Option<(seq<Booking>, Taken)>): Option<seq<Booking>>
  {
    match rest
    case None => None
    case Some(b) => Some(ind + b.0)
  }

  /** Building subject `k` moves its genes from what is to come to what
      is built; when it raises, so does the whole. */
  lemma {:induction false} PendingNext(t: Tables, ind: seq<Booking>, k: int, occ: Taken)
    requires 0 <= k < |t.courses|
    ensures var cs := t.courses;
            match Allocation(t, cs[k], Cohort, occ)
            case None => Pending(ind, Built(t, cs[k..], occ)) == None
            case Some(a) => Pending(ind, Built(t, cs[k..], occ)) == Pending(ind + a.0, Built(t, cs[k + 1..], a.1))
  {
    var cs := t.courses;
    assert cs[k..][0] == cs[k] && cs[k..][1..] == cs[k + 1..];
    match Allocation(t, cs[k], Cohort, occ)
    case None =>
    case Some(a) =>
      match Built(t, cs[k + 1..], a.1)
      case None =>
      case Some(b) =>
        assert ind + (a.0 + b.0) == (ind + a.0) + b.0;
  }

  /** `criar_individuo_otimizado`: every subject of the table allocated in
      turn for the cohort over one occupancy, the genes appended. */
  method CreateIndividual(t: Tables) returns (r: Option<seq<Booking>>)
    ensures r == Individual(t)
  {
    var occ := new Occupancy();
    var ind: seq<Booking> := [];
    assert t.courses[0..] == t.courses;
    if Built(t, t.courses, map[]).Some? {
      assert [] + Built(t, t.courses, map[]).value.0 == Built(t, t.courses, map[]).value.0;
    }
    for k := 0 to |t.courses|
      invariant Individual(t) == Pending(ind, Built(t, t.courses[k..], occ.taken))
    {
      PendingNext(t, ind, k, occ.taken);
      var a := AllocateByRule(t, t.courses[k], Cohort, occ);
      if a.None? {
        return None;
      }
      ind := ind + a.value;
    }
    assert t.courses[|t.courses|..] == [];
    assert ind + [] == ind;
    return Some(ind);
  }
}
