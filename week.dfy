/** The evening week every optimiser works on: five weekdays by four fixed
    time bands, a 5 x 4 grid of twenty addressable positions. */
module Week {

  const NumDays: nat := 5
  const NumSlots: nat := 4
  const NumCells: nat := 20

  /** Day names, Monday to Friday, as the catalog spells them. */
  const DayNames: seq<string> := ["Segunda", "Ter\U{E7}a", "Quarta", "Quinta", "Sexta"]

  /** The four evening time bands, earliest first. */
  const SlotNames: seq<string> := ["18:50", "19:40", "20:30", "21:20"]

  const Friday: string := "Sexta"
  const FirstSlot: string := "18:50"
  const SecondSlot: string := "19:40"

  predicate IsDay(d: int) { 0 <= d < NumDays }
  predicate IsSlot(h: int) { 0 <= h < NumSlots }

  /** A position in `DayNames`, and one in `SlotNames`. */
  type DayIndex = d: int | 0 <= d < NumDays
  type SlotIndex = h: int | 0 <= h < NumSlots

  /** Row-major position of cell (d, h): the order in which numpy's
      `agenda[d, h]` double loops visit the grid. */
  function Pos(d: int, h: int): (k: nat)
    requires IsDay(d) && IsSlot(h)
    ensures k < NumCells && k / 4 == d && k % 4 == h
  {
    d * 4 + h
  }

  function DayOf(k: nat): (d: nat)
    requires k < NumCells
    ensures IsDay(d)
  {
    k / 4
  }

  function SlotOf(k: nat): (h: nat)
    requires k < NumCells
    ensures IsSlot(h)
  {
    k % 4
  }

  lemma {:induction false} DayNamesDistinct()
    ensures |DayNames| == NumDays
    ensures forall i, j :: 0 <= i < j < NumDays ==> DayNames[i] != DayNames[j]
  {
  }

  lemma {:induction false} SlotNamesDistinct()
    ensures |SlotNames| == NumSlots
    ensures forall i, j :: 0 <= i < j < NumSlots ==> SlotNames[i] != SlotNames[j]
  {
  }
}
