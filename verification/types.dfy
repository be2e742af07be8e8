/**
 Shared vocabulary of the Voltage Wars board: electrode metals, electrode
 slots, the two kinds of sabotage card and the action a sabotage click
 produces, and the scope (own board or opponent's board) an action targets.
 */
module Types {

  /** A value that may be absent (the source's `null` / `undefined`). */
  datatype Option<+T> = None | Some(value: T)

  /** `Math.abs` on voltages. */
  function Abs(x: real): (a: real)
    ensures a >= 0.0 && (a == x || a == -x)
  {
    if x < 0.0 then -x else x
  }

  /** The six electrode metals a team can place in a beaker. */
  datatype Metal = Mg | Ag | Cu | Pb | Fe | Zn

  /** The left or right electrode slot of a cell. */
  datatype Slot = L | R

  /** The other slot. */
  function Opposite(s: Slot): (o: Slot)
    ensures o != s
  {
    match s
    case L => R
    case R => L
  }

  /** Which cell of a team's board: cell 1 or cell 2. */
  datatype CellId = Cell1 | Cell2

  /** The two effects a chance card can have. */
  datatype SabotageType = SwapElectrode | ReversePolarity

  /** What a click on the target board produces while a card is armed:
      replace one electrode by the card's metal, or reverse one cell. */
  datatype SabotageAction =
    | Swap(cell: CellId, slot: Slot, newMetal: Metal)
    | Reverse(cell: CellId)

  /** Whose board an action is aimed at. */
  datatype Scope = SelfScope | OpponentScope
}
