/**
 The current/electron flow overlay of components/WiringStage.tsx
 (`activeFlowPath`): a breadth-first search from a source probe to a sink
 probe over the drawn wires plus the two bridges inside the cells
 (`c1_L`-`c1_R` and `c2_L`-`c2_R`), followed by a walk back along the
 parent links. The result is the chain of directed edges the animation
 runs along; the source keeps them as a set of `"p->c"` strings, which is
 the set of this chain's elements.
 */
module Flow {
  import opened Types
  import opened Wires

  /** Whether the overlay shows electron flow or conventional current. */
  datatype FlowMode = Electron | Current

  /** Below this magnitude the overlay shows nothing. */
  const FlowThreshold: real := 0.01

  /** Where the animated flow starts and ends. Electrons leave the black
      probe when the voltage is positive; conventional current runs the
      other way, and a non-positive voltage swaps both. */
  function FlowEnds(voltage: real, mode: FlowMode): (ends: (NodeId, NodeId))
    ensures {ends.0, ends.1} == {VPos, VNeg}
    ensures ends.0 == VNeg <==> ((voltage > 0.0) == (mode == Electron))
  {
    if voltage > 0.0 then
      (if mode == Electron then (VNeg, VPos) else (VPos, VNeg))
    else
      (if mode == Electron then (VPos, VNeg) else (VNeg, VPos))
  }

  function SwapEnds(e: (NodeId, NodeId)): (NodeId, NodeId) {
    (e.1, e.0)
  }

  /** Changing the flow mode, or the sign of a non-zero voltage, reverses
      the direction of the flow. */
  lemma FlowEndsSymmetry(voltage: real, mode: FlowMode)
    ensures FlowEnds(voltage, Electron) == SwapEnds(FlowEnds(voltage, Current))
    ensures voltage != 0.0 ==> FlowEnds(-voltage, mode) == SwapEnds(FlowEnds(voltage, mode))
  {
  }

  // ---------------------------------------------------------------------
  // The circuit graph

  /** What one wire pushes onto the adjacency list of `x`: its far end when
      it starts at `x`, then its near end when it ends at `x`. */
  function WireEnds(w: Wire, x: NodeId): seq<NodeId> {
    (if w.from == x then [w.to] else []) + (if w.to == x then [w.from] else [])
  }

  /** The terminals joined to `x` by the wires, in the order the adjacency
      list is filled. */
  function WireNeighbors(ws: seq<Wire>, x: NodeId): seq<NodeId> {
    if ws == [] then [] else WireEnds(ws[0], x) + WireNeighbors(ws[1..], x)
  }

  /** The other electrode of the same cell (the salt-bridge edge). */
  function CellNeighbors(x: NodeId): seq<NodeId> {
    match x
    case C1L => [C1R]
    case C1R => [C1L]
    case C2L => [C2R]
    case C2R => [C2L]
    case _ => []
  }

  /** The adjacency list of `x`: wires first, then the cell bridges. */
  function Neighbors(ws: seq<Wire>, x: NodeId): seq<NodeId> {
    WireNeighbors(ws, x) + CellNeighbors(x)
  }

  /** `u` and `v` are the two electrodes of one cell. */
  predicate IntraCell(u: NodeId, v: NodeId) {
    || (u == C1L && v == C1R) || (u == C1R && v == C1L)
    || (u == C2L && v == C2R) || (u == C2R && v == C2L)
  }

  /** An edge of the circuit graph: a drawn wire or a cell bridge. */
  ghost predicate IsCircuitEdge(ws: seq<Wire>, u: NodeId, v: NodeId) {
    HasEdge(ws, u, v) || IntraCell(u, v)
  }

  /** A non-empty list has an edge iff its head or its tail has one. */
  lemma HasEdgeCons(ws: seq<Wire>, a: NodeId, b: NodeId)
    requires ws != []
    ensures HasEdge(ws, a, b) <==> Joins(ws[0], a, b) || HasEdge(ws[1..], a, b)
  {
    if HasEdge(ws[1..], a, b) {
      var i :| 0 <= i < |ws[1..]| && Joins(ws[1..][i], a, b);
      assert Joins(ws[i + 1], a, b);
    }
    if HasEdge(ws, a, b) && !Joins(ws[0], a, b) {
      var i :| 0 <= i < |ws| && Joins(ws[i], a, b);
      assert Joins(ws[1..][i - 1], a, b);
    }
  }

  /** The wire adjacency lists hold exactly the wire neighbours. */
  lemma {:induction false} WireNeighborsExact(ws: seq<Wire>, x: NodeId, v: NodeId)
    ensures v in WireNeighbors(ws, x) <==> HasEdge(ws, x, v)
  {
    if ws != [] {
      WireNeighborsExact(ws[1..], x, v);
      HasEdgeCons(ws, x, v);
      assert v in WireEnds(ws[0], x) <==> Joins(ws[0], x, v);
    }
  }

  /** The adjacency lists describe the circuit graph exactly. */
  lemma NeighborsExact(ws: seq<Wire>, u: NodeId, v: NodeId)
    ensures v in Neighbors(ws, u) <==> IsCircuitEdge(ws, u, v)
  {
    WireNeighborsExact(ws, u, v);
  }

  /** A walk along circuit edges. */
  ghost predicate IsWalk(ws: seq<Wire>, p: seq<NodeId>) {
    |p| > 0 && forall i :: 0 <= i < |p| - 1 ==> IsCircuitEdge(ws, p[i], p[i + 1])
  }

  /** `b` can be reached from `a` along wires and cell bridges. */
  ghost predicate Reachable(ws: seq<Wire>, a: NodeId, b: NodeId) {
    exists p :: IsWalk(ws, p) && p[0] == a && p[|p| - 1] == b
  }

  /** A chain of directed circuit edges leading from `src` to `sink`. */
  ghost predicate IsChain(ws: seq<Wire>, path: seq<(NodeId, NodeId)>, src: NodeId, sink: NodeId) {
    && |path| > 0
    && path[0].0 == src
    && path[|path| - 1].1 == sink
    && (forall i :: 0 <= i < |path| - 1 ==> path[i].1 == path[i + 1].0)
    && (forall i :: 0 <= i < |path| ==> IsCircuitEdge(ws, path[i].0, path[i].1))
  }

  /** A set closed under circuit edges holds the end of every walk that
      starts inside it. */
  lemma {:induction false} ClosedSetTrapsWalks(ws: seq<Wire>, s: set<NodeId>, p: seq<NodeId>)
    requires forall u, v :: u in s && IsCircuitEdge(ws, u, v) ==> v in s
    requires IsWalk(ws, p) && p[0] in s
    ensures p[|p| - 1] in s
    decreases |p|
  {
    if |p| > 1 {
      var q := p[..|p| - 1];
      assert IsWalk(ws, q) by {
        forall i | 0 <= i < |q| - 1
          ensures IsCircuitEdge(ws, q[i], q[i + 1])
        {
          assert q[i] == p[i] && q[i + 1] == p[i + 1];
        }
      }
      ClosedSetTrapsWalks(ws, s, q);
      assert IsCircuitEdge(ws, p[|p| - 2], p[|p| - 1]);
    }
  }

  const AllNodes: set<NodeId> := {VPos, VNeg, C1L, C1R, C2L, C2R}

  lemma AllNodesComplete(n: NodeId)
    ensures n in AllNodes
  {
  }

  /** Every discovered terminal other than the start has a discovered
      parent joined to it by a circuit edge and strictly nearer the start. */
  ghost predicate ParentsOk(ws: seq<Wire>, src: NodeId, visited: set<NodeId>,
                            parent: map<NodeId, NodeId>, dist: map<NodeId, nat>) {
    && src in visited
    && visited == dist.Keys
    && forall x :: x in visited && x != src ==>
         x in parent && parent[x] in visited && IsCircuitEdge(ws, parent[x], x) && dist[parent[x]] < dist[x]
  }

  /** Every neighbour of a fully expanded terminal has been discovered. */
  ghost predicate Expanded(ws: seq<Wire>, done: set<NodeId>, visited: set<NodeId>) {
    forall u, v :: u in done && v in Neighbors(ws, u) ==> v in visited
  }

  /** The inner loop of the search: discover, in adjacency-list order, every
      neighbour of `curr` not seen before, recording `curr` as its parent
      and appending it to the queue. */
  method Expand(ws: seq<Wire>, ghost src: NodeId, curr: NodeId, queue: seq<NodeId>,
                visited: set<NodeId>, parent: map<NodeId, NodeId>, ghost dist: map<NodeId, nat>)
    returns (queue': seq<NodeId>, visited': set<NodeId>, parent': map<NodeId, NodeId>,
             ghost dist': map<NodeId, nat>)
    requires curr in visited && ParentsOk(ws, src, visited, parent, dist)
    ensures ParentsOk(ws, src, visited', parent', dist')
    ensures visited <= visited' && queue <= queue'
    ensures visited' == visited ==> queue' == queue
    ensures forall v :: v in Neighbors(ws, curr) ==> v in visited'
    ensures forall x :: x in visited' ==> x in visited || x in queue'
    ensures forall x :: x in queue' ==> x in queue || x in visited'
  {
    var nbrs := Neighbors(ws, curr);
    queue', visited', parent', dist' := queue, visited, parent, dist;
    var j := 0;
    while j < |nbrs|
      invariant 0 <= j <= |nbrs|
      invariant curr in visited' && ParentsOk(ws, src, visited', parent', dist')
      invariant visited <= visited' && queue <= queue'
      invariant visited' == visited ==> queue' == queue
      invariant forall k :: 0 <= k < j ==> nbrs[k] in visited'
      invariant forall x :: x in visited' ==> x in visited || x in queue'
      invariant forall x :: x in queue' ==> x in queue || x in visited'
    {
      var nb := nbrs[j];
      if nb !in visited' {
        NeighborsExact(ws, curr, nb);
        visited' := visited' + {nb};
        parent' := parent'[nb := curr];
        dist' := dist'[nb := dist'[curr] + 1];
        queue' := queue' + [nb];
      }
      j := j + 1;
    }
  }

  /** The queue holds discovered terminals, and every discovered terminal
      is either expanded already or still waiting in the queue. */
  ghost predicate Frontier(queue: seq<NodeId>, visited: set<NodeId>, done: set<NodeId>) {
    && (forall x :: x in queue ==> x in visited)
    && (forall x :: x in visited ==> x in done || x in queue)
    && done <= visited
  }

  /** Dequeuing the head of the queue and expanding it keeps the frontier
      and marks the head as expanded. */
  lemma SearchStep(ws: seq<Wire>, queue: seq<NodeId>, done: set<NodeId>, visited: set<NodeId>,
                   queue': seq<NodeId>, visited': set<NodeId>)
    requires |queue| > 0
    requires Frontier(queue, visited, done) && Expanded(ws, done, visited)
    requires visited <= visited' && queue[1..] <= queue'
    requires forall v :: v in Neighbors(ws, queue[0]) ==> v in visited'
    requires forall x :: x in visited' ==> x in visited || x in queue'
    requires forall x :: x in queue' ==> x in queue[1..] || x in visited'
    ensures Frontier(queue', visited', done + {queue[0]})
    ensures Expanded(ws, done + {queue[0]}, visited')
  {
    forall x | x in queue'
      ensures x in visited'
    {
      if x in queue[1..] {
        assert x in queue;
      }
    }
    forall x | x in visited'
      ensures x in done + {queue[0]} || x in queue'
    {
      if x in visited && x !in done && x != queue[0] {
        assert x in queue;
        assert x in queue[1..];
        var k :| 0 <= k < |queue[1..]| && queue[1..][k] == x;
        assert queue'[k] == x;
      }
    }
  }

  /** The breadth-first search of `activeFlowPath` from `src`, stopping when
      `sink` leaves the queue. When the sink is not found, the discovered
      set is closed under circuit edges. */
  method Search(ws: seq<Wire>, src: NodeId, sink: NodeId)
    returns (found: bool, visited: set<NodeId>, parent: map<NodeId, NodeId>, ghost dist: map<NodeId, nat>)
    ensures ParentsOk(ws, src, visited, parent, dist)
    ensures found ==> sink in visited
    ensures !found ==> sink !in visited && Expanded(ws, visited, visited)
  {
    var queue := [src];
    visited := {src};
    parent := map[];
    found := false;
    ghost var done: set<NodeId> := {};
    dist := map[src := 0];

    while |queue| > 0
      invariant ParentsOk(ws, src, visited, parent, dist)
      invariant Frontier(queue, visited, done)
      invariant Expanded(ws, done, visited)
      invariant sink !in done
      invariant found ==> sink in visited
      decreases AllNodes - visited, |queue|
    {
      var curr := queue[0];
      var rest := queue[1..];
      if curr == sink {
        found := true;
        break;
      }
      var queue', visited', parent', dist' := Expand(ws, src, curr, rest, visited, parent, dist);
      SearchStep(ws, queue, done, visited, queue', visited');
      queue, visited, parent, dist := queue', visited', parent', dist';
      done := done + {curr};
      assert visited <= AllNodes by {
        forall x | x in visited
          ensures x in AllNodes
        {
          AllNodesComplete(x);
        }
      }
    }
  }

  /** The walk back from the sink along parent links, producing the chain
      of directed edges from `src` to `sink`. */
  method WalkBack(ws: seq<Wire>, src: NodeId, sink: NodeId, visited: set<NodeId>,
                  parent: map<NodeId, NodeId>, ghost dist: map<NodeId, nat>)
    returns (path: seq<(NodeId, NodeId)>)
    requires ParentsOk(ws, src, visited, parent, dist)
    requires sink in visited && sink != src
    ensures IsChain(ws, path, src, sink)
    ensures Reachable(ws, src, sink)
  {
    path := [];
    var c := sink;
    ghost var walk := [sink];
    while c != src
      invariant c in visited
      invariant IsWalk(ws, walk) && walk[0] == c && walk[|walk| - 1] == sink
      invariant path == [] ==> c == sink
      invariant path != [] ==> IsChain(ws, path, c, sink)
      decreases dist[c]
    {
      var p := parent[c];
      path := [(p, c)] + path;
      walk := [p] + walk;
      c := p;
    }
  }

  /** The search of `activeFlowPath` followed by the walk back. Neighbours
      are visited in adjacency-list order and the first discoverer of a
      terminal becomes its parent. */
  method TracePath(ws: seq<Wire>, src: NodeId, sink: NodeId) returns (path: seq<(NodeId, NodeId)>)
    requires src != sink
    ensures path == [] <==> !Reachable(ws, src, sink)
    ensures path != [] ==> IsChain(ws, path, src, sink)
  {
    var found, visited, parent, dist := Search(ws, src, sink);
    if found {
      path := WalkBack(ws, src, sink, visited, parent, dist);
    } else {
      path := [];
      forall u, v | u in visited && IsCircuitEdge(ws, u, v)
        ensures v in visited
      {
        NeighborsExact(ws, u, v);
      }
      forall p | IsWalk(ws, p) && p[0] == src
        ensures p[|p| - 1] != sink
      {
        ClosedSetTrapsWalks(ws, visited, p);
      }
    }
  }

  /** `activeFlowPath`: nothing when the overlay is off or the voltage is
      negligible; otherwise the traced chain between the ends `FlowEnds`
      picks, or nothing when the sink cannot be reached. */
  method ActiveFlowPath(ws: seq<Wire>, showFlow: bool, voltage: real, mode: FlowMode)
    returns (path: seq<(NodeId, NodeId)>)
    ensures !showFlow || Abs(voltage) < FlowThreshold ==> path == []
    ensures showFlow && Abs(voltage) >= FlowThreshold ==>
      (path == [] <==> !Reachable(ws, FlowEnds(voltage, mode).0, FlowEnds(voltage, mode).1))
    ensures path != [] ==> IsChain(ws, path, FlowEnds(voltage, mode).0, FlowEnds(voltage, mode).1)
  {
    if !showFlow {
      return [];
    }
    if Abs(voltage) < FlowThreshold {
      return [];
    }
    var ends := FlowEnds(voltage, mode);
    path := TracePath(ws, ends.0, ends.1);
  }
}
