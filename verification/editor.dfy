/**
 The click-driven wire editor of components/WiringStage.tsx: a first click
 on a terminal selects it, a second click on another terminal tries to
 connect the two, clicking the selected terminal again or the background
 drops the selection, clicking a wire deletes it, and the bin button clears
 the board. Every handler is a pure update of the board.
 */
module Editor {
  import opened Wires

  /** The terminal chosen as the start of the next wire, if any. */
  datatype Selection = NoSelection | Selected(node: NodeId)

  /** The editor's state: the wires drawn so far and the selection. */
  datatype Board = Board(wires: seq<Wire>, selected: Selection)

  /** The props that lock the editor: a read-only replay view, or the board
      shown as a sabotage target. */
  datatype Mode = Mode(readOnly: bool, sabotage: bool)

  predicate Editable(m: Mode) {
    !m.readOnly && !m.sabotage
  }

  /** A selected terminal always has room for one more wire. */
  ghost predicate SelectionHasRoom(b: Board) {
    b.selected.Selected? ==> Connections(b.wires, b.selected.node) < MaxConnections
  }

  /** The invariant the editor keeps between clicks. */
  ghost predicate Inv(b: Board) {
    WellFormed(b.wires) && SelectionHasRoom(b)
  }

  /** `isConnectable`: `target` is highlighted as a valid end for a wire
      from the selected terminal. */
  predicate IsConnectable(ws: seq<Wire>, sel: Selection, target: NodeId) {
    && sel.Selected?
    && sel.node != target
    && Connections(ws, target) < MaxConnections
    && !HasEdge(ws, sel.node, target)
  }

  /** `handleNodeClick`. */
  function HandleNodeClick(b: Board, mode: Mode, id: NodeId, freshId: string): (r: Board)
    ensures !Editable(mode) ==> r == b
    ensures Editable(mode) && b.selected == Selected(id) ==> r == Board(b.wires, NoSelection)
    ensures r.wires == b.wires
         || (b.selected.Selected? && r.wires == TryConnect(b.wires, b.selected.node, id, freshId))
    ensures r.wires != b.wires ==> r.selected == NoSelection
    ensures r.selected != b.selected && r.selected.Selected? ==>
              r.selected.node == id && Connections(r.wires, id) < MaxConnections
    ensures Editable(mode) && b.selected == NoSelection ==>
              r.wires == b.wires
              && (r.selected == Selected(id) <==> Connections(b.wires, id) < MaxConnections)
    ensures Editable(mode) && b.selected.Selected? && b.selected.node != id
            && !IsConnectable(b.wires, b.selected, id) ==>
              r.wires == b.wires
              && r.selected == (if Connections(b.wires, id) < MaxConnections then Selected(id) else b.selected)
  {
    if !Editable(mode) then b
    else match b.selected
      case NoSelection =>
        if Connections(b.wires, id) < MaxConnections then Board(b.wires, Selected(id)) else b
      case Selected(s) =>
        if s == id then Board(b.wires, NoSelection)
        else if IsConnectable(b.wires, b.selected, id) then
          Board(TryConnect(b.wires, s, id, freshId), NoSelection)
        else if Connections(b.wires, id) < MaxConnections then Board(b.wires, Selected(id))
        else b
  }

  /** `handleBackgroundClick`: drop the selection, keep the wires. */
  function HandleBackgroundClick(b: Board): (r: Board)
    ensures r.wires == b.wires && r.selected == NoSelection
  {
    if b.selected.Selected? then Board(b.wires, NoSelection) else b
  }

  /** `handleWireClick`: delete every wire with this id, unless locked. */
  function HandleWireClick(b: Board, mode: Mode, id: string): (r: Board)
    ensures r.selected == b.selected
    ensures !Editable(mode) ==> r == b
    ensures forall w :: w in r.wires <==> w in b.wires && (w.id != id || !Editable(mode))
  {
    if Editable(mode) then Board(RemoveWire(b.wires, id), b.selected) else b
  }

  /** `clearWires`: empty the board and drop the selection. */
  function ClearWires(b: Board): (r: Board)
    ensures |r.wires| == 0 && r.selected == NoSelection
  {
    Board([], NoSelection)
  }

  // ---------------------------------------------------------------------
  // The editor invariant

  /** A second click on a highlighted terminal draws exactly the wire from
      the selected terminal to it and clears the selection. */
  lemma ConnectableClickConnects(b: Board, mode: Mode, id: NodeId, freshId: string)
    requires Inv(b) && Editable(mode)
    requires IsConnectable(b.wires, b.selected, id)
    ensures HandleNodeClick(b, mode, id, freshId)
         == Board(b.wires + [Wire(freshId, b.selected.node, id)], NoSelection)
  {
  }

  /** A highlighted terminal is exactly one `TryConnect` would accept from
      the selected terminal, as long as the selection has room. */
  lemma ConnectableMatchesTryConnect(b: Board, id: NodeId)
    requires SelectionHasRoom(b) && b.selected.Selected?
    ensures IsConnectable(b.wires, b.selected, id) <==> CanConnect(b.wires, b.selected.node, id)
  {
  }

  lemma NodeClickKeepsInv(b: Board, mode: Mode, id: NodeId, freshId: string)
    requires Inv(b)
    ensures Inv(HandleNodeClick(b, mode, id, freshId))
  {
    if b.selected.Selected? {
      TryConnectPreservesWellFormed(b.wires, b.selected.node, id, freshId);
    }
  }

  lemma WireClickKeepsInv(b: Board, mode: Mode, id: string)
    requires Inv(b)
    ensures Inv(HandleWireClick(b, mode, id))
  {
    RemoveWirePreservesWellFormed(b.wires, id);
    if b.selected.Selected? {
      RemoveWireConnections(b.wires, id, b.selected.node);
    }
  }

  /** One user gesture on the wiring board. */
  datatype Event =
    | NodeClick(node: NodeId, freshId: string)
    | BackgroundClick
    | WireClick(wireId: string)
    | ClearClick

  /** One gesture as the board receives it. A click on a wire is not
      stopped at the wire, so the board's own click handler runs after it
      and drops the selection. The bin button is only shown on an editable
      board. */
  function Step(b: Board, mode: Mode, e: Event): (r: Board)
    ensures !Editable(mode) ==> r.wires == b.wires
    ensures e.BackgroundClick? ==> r == Board(b.wires, NoSelection)
    ensures e.WireClick? ==>
      r.selected == NoSelection
      && forall w :: w in r.wires <==> w in b.wires && (w.id != e.wireId || !Editable(mode))
    ensures e.ClearClick? ==> r == (if Editable(mode) then Board([], NoSelection) else b)
  {
    match e
    case NodeClick(n, fid) => HandleNodeClick(b, mode, n, fid)
    case BackgroundClick => HandleBackgroundClick(b)
    case WireClick(wid) => HandleBackgroundClick(HandleWireClick(b, mode, wid))
    case ClearClick => if Editable(mode) then ClearWires(b) else b
  }

  /** A sequence of gestures. A locked board keeps its wires whatever is
      clicked. */
  function Run(b: Board, mode: Mode, es: seq<Event>): (r: Board)
    ensures !Editable(mode) ==> r.wires == b.wires
    decreases |es|
  {
    if es == [] then b else Run(Step(b, mode, es[0]), mode, es[1..])
  }

  /** After any sequence of gestures from an empty board, no terminal
      carries more than two wires, no wire is a self-loop, no pair of
      terminals is joined twice, and a selected terminal has room. */
  lemma {:induction false} RunKeepsInv(b: Board, mode: Mode, es: seq<Event>)
    requires Inv(b)
    ensures Inv(Run(b, mode, es))
    ensures forall n: NodeId :: Connections(Run(b, mode, es).wires, n) <= MaxConnections
    decreases |es|
  {
    if es != [] {
      match es[0] {
        case NodeClick(n, fid) => NodeClickKeepsInv(b, mode, n, fid);
        case BackgroundClick =>
        case WireClick(wid) => WireClickKeepsInv(b, mode, wid);
        case ClearClick => assert WellFormed([]);
      }
      RunKeepsInv(Step(b, mode, es[0]), mode, es[1..]);
    }
  }

  /** The empty board satisfies the invariant, so every reachable board
      does. */
  lemma EmptyBoardInv()
    ensures Inv(Board([], NoSelection))
  {
    assert WellFormed([]);
  }
}
