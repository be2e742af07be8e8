/**
 The two cells of a board as the wiring view sees them
 (components/WiringStage.tsx): which metal sits physically on each side
 once a reversed-polarity flip is taken into account, and which sabotage
 action a click on a beaker or on a whole cell produces while a chance card
 is armed.
 */
module Cells {
  import opened Types

  /** A cell: the metals stored in its left and right slots (absent until
      assembled) and whether a reverse-polarity card has turned it round. */
  datatype Cell = Cell(metalL: Option<Metal>, metalR: Option<Metal>, isFlipped: bool)

  /** A terminal's label: the metal, or `'?'` for an empty slot. */
  datatype Label = Known(metal: Metal) | Unknown

  /** The metal stored in a slot. */
  function Stored(c: Cell, s: Slot): Option<Metal> {
    match s
    case L => c.metalL
    case R => c.metalR
  }

  function LabelOf(m: Option<Metal>): (l: Label)
    ensures l.Unknown? <==> m.None?
    ensures m.Some? ==> l.metal == m.value
  {
    match m
    case None => Unknown
    case Some(x) => Known(x)
  }

  /** Reverse polarity: turn the cell round, slots untouched. */
  function Flip(c: Cell): (r: Cell)
    ensures r.metalL == c.metalL && r.metalR == c.metalR && r.isFlipped != c.isFlipped
  {
    c.(isFlipped := !c.isFlipped)
  }

  /** `getPhysicalMetal`: the label shown on the physical `side` of the
      cell. An unflipped cell shows its stored slot; a flipped cell shows
      the opposite slot. */
  function PhysicalMetal(c: Cell, side: Slot): (l: Label)
    ensures !c.isFlipped ==> l == LabelOf(Stored(c, side))
    ensures c.isFlipped ==> l == LabelOf(Stored(c, Opposite(side)))
  {
    var effective := if c.isFlipped then (if side == L then R else L) else side;
    if effective == L then LabelOf(c.metalL) else LabelOf(c.metalR)
  }

  /** Flipping moves each label to the other side. */
  lemma FlipMirrors(c: Cell, side: Slot)
    ensures PhysicalMetal(Flip(c), side) == PhysicalMetal(c, Opposite(side))
  {
  }

  /** Flipping twice shows every label where it was. */
  lemma FlipTwiceIsIdentity(c: Cell, side: Slot)
    ensures PhysicalMetal(Flip(Flip(c)), side) == PhysicalMetal(c, side)
  {
    FlipMirrors(c, side);
    FlipMirrors(Flip(c), side);
  }

  /** The two physical labels are the two stored slots, in some order:
      flipping never invents or loses an electrode. */
  lemma PhysicalIsPermutation(c: Cell)
    ensures multiset{PhysicalMetal(c, L), PhysicalMetal(c, R)}
         == multiset{LabelOf(c.metalL), LabelOf(c.metalR)}
  {
  }

  // ---------------------------------------------------------------------
  // Sabotage dispatch

  /** The props of a board shown as the target of an armed card. */
  datatype TargetProps = TargetProps(
    readOnly: bool,
    sabotageMode: bool,
    sabotageType: Option<SabotageType>,
    payload: Option<Metal>,
    hasHandler: bool)

  /** `handleBeakerClick`: in swap mode with a metal on the card, a click on
      a beaker asks to replace that slot by the card's metal. */
  function BeakerClick(p: TargetProps, cell: CellId, slot: Slot): (a: Option<SabotageAction>)
    ensures a.Some? <==>
      p.sabotageMode && p.hasHandler && p.sabotageType == Some(SwapElectrode) && p.payload.Some?
    ensures a.Some? ==> a.value == Swap(cell, slot, p.payload.value)
  {
    var isReverseMode := p.sabotageMode && p.sabotageType == Some(ReversePolarity);
    if isReverseMode then None
    else if p.readOnly && !p.sabotageMode then None
    else if p.sabotageMode && p.hasHandler && p.sabotageType == Some(SwapElectrode) && p.payload.Some? then
      Some(Swap(cell, slot, p.payload.value))
    else None
  }

  /** `handleCellContainerClick`: in reverse mode a click on a cell asks to
      reverse that cell. */
  function CellContainerClick(p: TargetProps, cell: CellId): (a: Option<SabotageAction>)
    ensures a.Some? <==> p.sabotageMode && p.hasHandler && p.sabotageType == Some(ReversePolarity)
    ensures a.Some? ==> a.value == Reverse(cell)
  {
    if p.readOnly && !p.sabotageMode then None
    else if p.sabotageMode && p.hasHandler && p.sabotageType == Some(ReversePolarity) then
      Some(Reverse(cell))
    else None
  }

  /** Under one set of props at most one kind of click does anything, and
      what it produces matches the armed card's effect. */
  lemma DispatchMatchesCard(p: TargetProps, cell: CellId, slot: Slot)
    ensures !(BeakerClick(p, cell, slot).Some? && CellContainerClick(p, cell).Some?)
    ensures BeakerClick(p, cell, slot).Some? ==> BeakerClick(p, cell, slot).value.Swap?
    ensures CellContainerClick(p, cell).Some? ==> CellContainerClick(p, cell).value.Reverse?
  {
  }

  /** Outside sabotage mode neither click produces an action, and the
      read-only flag never changes what a click produces. */
  lemma ReadOnlyIrrelevant(p: TargetProps, cell: CellId, slot: Slot)
    ensures !p.sabotageMode ==> BeakerClick(p, cell, slot).None? && CellContainerClick(p, cell).None?
    ensures BeakerClick(p.(readOnly := !p.readOnly), cell, slot) == BeakerClick(p, cell, slot)
    ensures CellContainerClick(p.(readOnly := !p.readOnly), cell) == CellContainerClick(p, cell)
  {
  }
}
