/**
 The wire list of a team's board (components/WiringStage.tsx).

 Six fixed terminals: the voltmeter probes `VPos` (red) and `VNeg` (black)
 and the two electrodes of each cell. A wire is an undirected edge between
 two terminals, kept in a list in insertion order. Insertion refuses
 self-loops, terminals that already carry two wires, and an edge that is
 already present in either orientation.
 */
module Wires {

  /** The six terminals (`v_pos`, `v_neg`, `c1_L`, `c1_R`, `c2_L`, `c2_R`). */
  datatype NodeId = VPos | VNeg | C1L | C1R | C2L | C2R

  /** A drawn wire; `id` comes from the clock and is not guaranteed unique. */
  datatype Wire = Wire(id: string, from: NodeId, to: NodeId)

  /** Most wires a terminal may carry. */
  const MaxConnections: nat := 2

  /** The wire has `n` as one of its endpoints. */
  predicate Touches(w: Wire, n: NodeId) {
    w.from == n || w.to == n
  }

  /** The wire joins `a` and `b`, in either orientation. */
  predicate Joins(w: Wire, a: NodeId, b: NodeId) {
    (w.from == a && w.to == b) || (w.from == b && w.to == a)
  }

  /** Number of wires touching `n` (a self-loop counts once). */
  function Connections(ws: seq<Wire>, n: NodeId): (c: nat)
    ensures c <= |ws|
  {
    if ws == [] then 0
    else (if Touches(ws[0], n) then 1 else 0) + Connections(ws[1..], n)
  }

  /** Some wire of the list joins `a` and `b`. */
  predicate HasEdge(ws: seq<Wire>, a: NodeId, b: NodeId) {
    exists i :: 0 <= i < |ws| && Joins(ws[i], a, b)
  }

  /** The board invariant the editor keeps: no self-loop, at most two wires
      per terminal, no two wires between the same pair of terminals. */
  ghost predicate WellFormed(ws: seq<Wire>) {
    && (forall i :: 0 <= i < |ws| ==> ws[i].from != ws[i].to)
    && (forall n: NodeId :: Connections(ws, n) <= MaxConnections)
    && (forall i, j :: 0 <= i < j < |ws| ==> !Joins(ws[j], ws[i].from, ws[i].to))
  }

  /** The three guard conditions of a connection attempt. */
  predicate CanConnect(ws: seq<Wire>, from: NodeId, to: NodeId) {
    && from != to
    && Connections(ws, from) < MaxConnections
    && Connections(ws, to) < MaxConnections
    && !HasEdge(ws, from, to)
  }

  /** `tryConnect`: add a wire `from`-`to` with the given fresh id, unless
      it is a self-loop, an endpoint is full, or the edge already exists. */
  function TryConnect(ws: seq<Wire>, from: NodeId, to: NodeId, freshId: string): (r: seq<Wire>)
    ensures r == ws || r == ws + [Wire(freshId, from, to)]
    ensures from == to ==> r == ws
    ensures Connections(ws, from) >= MaxConnections || Connections(ws, to) >= MaxConnections ==> r == ws
    ensures HasEdge(ws, from, to) ==> r == ws
    ensures r != ws ==> |r| == |ws| + 1 && r[..|ws|] == ws && r[|ws|] == Wire(freshId, from, to)
    ensures r != ws <==> CanConnect(ws, from, to)
    ensures r != ws ==> HasEdge(r, from, to)
  {
    if from == to then ws
    else if Connections(ws, from) >= MaxConnections || Connections(ws, to) >= MaxConnections then ws
    else if HasEdge(ws, from, to) then ws
    else
      var r := ws + [Wire(freshId, from, to)];
      assert Joins(r[|ws|], from, to);
      r
  }

  /** `handleWireClick`'s filter: drop every wire carrying `id`. */
  function RemoveWire(ws: seq<Wire>, id: string): (r: seq<Wire>)
    ensures |r| <= |ws|
    ensures forall w :: w in r <==> w in ws && w.id != id
  {
    if ws == [] then []
    else if ws[0].id == id then RemoveWire(ws[1..], id)
    else [ws[0]] + RemoveWire(ws[1..], id)
  }

  // ---------------------------------------------------------------------
  // Counting lemmas

  /** A terminal has no wire exactly when no wire of the list touches it. */
  lemma {:induction false} ConnectionsZero(ws: seq<Wire>, n: NodeId)
    ensures Connections(ws, n) == 0 <==> forall i :: 0 <= i < |ws| ==> !Touches(ws[i], n)
  {
    if ws != [] {
      ConnectionsZero(ws[1..], n);
      assert forall i :: 1 <= i < |ws| ==> ws[i] == ws[1..][i - 1];
    }
  }

  /** Counting distributes over concatenation. */
  lemma {:induction false} ConnectionsConcat(a: seq<Wire>, b: seq<Wire>, n: NodeId)
    ensures Connections(a + b, n) == Connections(a, n) + Connections(b, n)
  {
    if a == [] {
      assert a + b == b;
    } else {
      assert (a + b)[1..] == a[1..] + b;
      ConnectionsConcat(a[1..], b, n);
    }
  }

  /** Appending one wire adds one to the count of exactly its endpoints. */
  lemma ConnectionsAppend(ws: seq<Wire>, w: Wire, n: NodeId)
    ensures Connections(ws + [w], n) == Connections(ws, n) + (if Touches(w, n) then 1 else 0)
  {
    ConnectionsConcat(ws, [w], n);
    assert [w][1..] == [];
  }

  /** Removing wires never raises a terminal's count. */
  lemma {:induction false} RemoveWireConnections(ws: seq<Wire>, id: string, n: NodeId)
    ensures Connections(RemoveWire(ws, id), n) <= Connections(ws, n)
  {
    if ws != [] {
      RemoveWireConnections(ws[1..], id, n);
      if ws[0].id != id {
        assert ([ws[0]] + RemoveWire(ws[1..], id))[1..] == RemoveWire(ws[1..], id);
      }
    }
  }

  // ---------------------------------------------------------------------
  // Properties of TryConnect

  /** A wire added by `TryConnect` is never a self-loop: a board without
      self-loops stays without them. */
  lemma TryConnectNoSelfLoop(ws: seq<Wire>, from: NodeId, to: NodeId, freshId: string)
    requires forall i :: 0 <= i < |ws| ==> ws[i].from != ws[i].to
    ensures var r := TryConnect(ws, from, to, freshId);
      forall i :: 0 <= i < |r| ==> r[i].from != r[i].to
  {
  }

  /** `TryConnect` keeps the board invariant. */
  lemma TryConnectPreservesWellFormed(ws: seq<Wire>, from: NodeId, to: NodeId, freshId: string)
    requires WellFormed(ws)
    ensures WellFormed(TryConnect(ws, from, to, freshId))
  {
    var r := TryConnect(ws, from, to, freshId);
    if r != ws {
      var w := Wire(freshId, from, to);
      forall n: NodeId
        ensures Connections(r, n) <= MaxConnections
      {
        ConnectionsAppend(ws, w, n);
      }
      forall i, j | 0 <= i < j < |r|
        ensures !Joins(r[j], r[i].from, r[i].to)
      {
        if j == |ws| {
          assert r[i] == ws[i];
          assert !Joins(ws[i], from, to);
        }
      }
    }
  }

  /** A terminal already carrying two wires blocks every connection
      attempt that involves it. */
  lemma FullTerminalBlocks(ws: seq<Wire>, from: NodeId, to: NodeId, freshId: string)
    requires Connections(ws, from) >= MaxConnections || Connections(ws, to) >= MaxConnections
    ensures forall n: NodeId :: Connections(TryConnect(ws, from, to, freshId), n) == Connections(ws, n)
  {
  }

  /** Connecting the same pair again, in either orientation and with any
      new id, changes nothing: a repeated connect is idempotent. */
  lemma TryConnectIdempotent(ws: seq<Wire>, from: NodeId, to: NodeId, id1: string, id2: string)
    ensures var r := TryConnect(ws, from, to, id1);
      TryConnect(r, from, to, id2) == r && TryConnect(r, to, from, id2) == r
  {
    var r := TryConnect(ws, from, to, id1);
    if r != ws {
      assert Joins(r[|ws|], from, to) && Joins(r[|ws|], to, from);
    } else {
      assert HasEdge(ws, from, to) <==> HasEdge(ws, to, from) by {
        if HasEdge(ws, from, to) {
          var i :| 0 <= i < |ws| && Joins(ws[i], from, to);
          assert Joins(ws[i], to, from);
        }
        if HasEdge(ws, to, from) {
          var i :| 0 <= i < |ws| && Joins(ws[i], to, from);
          assert Joins(ws[i], from, to);
        }
      }
    }
  }

  // ---------------------------------------------------------------------
  // Properties of RemoveWire

  /** Removal keeps the surviving wires in their order: it acts on each
      part of a split list separately. */
  lemma {:induction false} RemoveWireConcat(a: seq<Wire>, b: seq<Wire>, id: string)
    ensures RemoveWire(a + b, id) == RemoveWire(a, id) + RemoveWire(b, id)
  {
    if a == [] {
      assert a + b == b;
    } else {
      assert (a + b)[0] == a[0];
      assert (a + b)[1..] == a[1..] + b;
      RemoveWireConcat(a[1..], b, id);
    }
  }

  /** Removing an id no wire carries leaves the list unchanged. */
  lemma {:induction false} RemoveAbsentId(ws: seq<Wire>, id: string)
    requires forall i :: 0 <= i < |ws| ==> ws[i].id != id
    ensures RemoveWire(ws, id) == ws
  {
    if ws != [] {
      RemoveAbsentId(ws[1..], id);
      assert [ws[0]] + ws[1..] == ws;
    }
  }

  /** Removing twice is removing once. */
  lemma RemoveWireIdempotent(ws: seq<Wire>, id: string)
    ensures RemoveWire(RemoveWire(ws, id), id) == RemoveWire(ws, id)
  {
    var r := RemoveWire(ws, id);
    forall i | 0 <= i < |r|
      ensures r[i].id != id
    {
      assert r[i] in r;
    }
    RemoveAbsentId(r, id);
  }

  /** Every surviving wire was already on the board, so removal keeps the
      board invariant. */
  lemma {:induction false} RemoveWirePreservesWellFormed(ws: seq<Wire>, id: string)
    requires WellFormed(ws)
    ensures WellFormed(RemoveWire(ws, id))
  {
    forall n: NodeId
      ensures Connections(RemoveWire(ws, id), n) <= MaxConnections
    {
      RemoveWireConnections(ws, id, n);
    }
    if ws != [] {
      var rest := ws[1..];
      assert WellFormed(rest) by {
        forall n: NodeId
          ensures Connections(rest, n) <= MaxConnections
        {
          assert Connections(ws, n) == (if Touches(ws[0], n) then 1 else 0) + Connections(rest, n);
        }
      }
      RemoveWirePreservesWellFormed(rest, id);
      if ws[0].id != id {
        var r := [ws[0]] + RemoveWire(rest, id);
        forall j | 0 < j < |r|
          ensures !Joins(r[j], r[0].from, r[0].to)
        {
          assert r[j] in RemoveWire(rest, id);
          var k :| 0 <= k < |rest| && rest[k] == r[j];
          assert ws[k + 1] == r[j];
        }
      }
    }
  }

  // ---------------------------------------------------------------------
  // Guide wirings shown in practice mode (GUIDE_PATHS)

  /** Series guide: black probe to cell 1 left, cell 1 right to cell 2
      left, cell 2 right to red probe. */
  const SeriesGuide: seq<(NodeId, NodeId)> := [(VNeg, C1L), (C1R, C2L), (C2R, VPos)]

  /** Parallel guide: black probe to both left electrodes, both right
      electrodes to the red probe. */
  const ParallelGuide: seq<(NodeId, NodeId)> := [(VNeg, C1L), (VNeg, C2L), (C1R, VPos), (C2R, VPos)]

  /** Apply `TryConnect` to each pair in order, drawing the ids in order. */
  function ConnectAll(ws: seq<Wire>, pairs: seq<(NodeId, NodeId)>, ids: seq<string>): (r: seq<Wire>)
    requires |ids| == |pairs|
    ensures ws <= r && |r| <= |ws| + |pairs|
    decreases |pairs|
  {
    if pairs == [] then ws
    else ConnectAll(TryConnect(ws, pairs[0].0, pairs[0].1, ids[0]), pairs[1..], ids[1..])
  }

  /** A wire that passes every guard is appended as is. */
  lemma Accepted(ws: seq<Wire>, from: NodeId, to: NodeId, id: string)
    requires CanConnect(ws, from, to)
    ensures TryConnect(ws, from, to, id) == ws + [Wire(id, from, to)]
  {
  }

  /** An edge is on a longer board iff it was on the shorter one or is the
      new wire. */
  lemma HasEdgeAppend(ws: seq<Wire>, w: Wire, a: NodeId, b: NodeId)
    ensures HasEdge(ws + [w], a, b) <==> HasEdge(ws, a, b) || Joins(w, a, b)
  {
    var r := ws + [w];
    if HasEdge(r, a, b) && !Joins(w, a, b) {
      var i :| 0 <= i < |r| && Joins(r[i], a, b);
      assert r[i] == ws[i];
    }
    if HasEdge(ws, a, b) {
      var i :| 0 <= i < |ws| && Joins(ws[i], a, b);
      assert r[i] == ws[i];
    }
    assert r[|ws|] == w;
  }

  /** What appending `w` does to the facts the guards of a connection
      `a`-`b` read: the two counts and the presence of the edge. */
  lemma Extend(ws: seq<Wire>, w: Wire, a: NodeId, b: NodeId)
    ensures Connections(ws + [w], a) == Connections(ws, a) + (if Touches(w, a) then 1 else 0)
    ensures Connections(ws + [w], b) == Connections(ws, b) + (if Touches(w, b) then 1 else 0)
    ensures HasEdge(ws + [w], a, b) <==> HasEdge(ws, a, b) || Joins(w, a, b)
  {
    ConnectionsAppend(ws, w, a);
    ConnectionsAppend(ws, w, b);
    HasEdgeAppend(ws, w, a, b);
  }

  /** One step of `ConnectAll`. */
  lemma ConnectAllStep(ws: seq<Wire>, pairs: seq<(NodeId, NodeId)>, ids: seq<string>)
    requires |ids| == |pairs| > 0
    ensures ConnectAll(ws, pairs, ids)
         == ConnectAll(TryConnect(ws, pairs[0].0, pairs[0].1, ids[0]), pairs[1..], ids[1..])
  {
  }

  /** The wires a guide asks for, with the given ids. */
  function GuideWires(pairs: seq<(NodeId, NodeId)>, ids: seq<string>): (r: seq<Wire>)
    requires |ids| == |pairs|
    ensures |r| == |pairs|
    ensures forall k :: 0 <= k < |r| ==> r[k] == Wire(ids[k], pairs[k].0, pairs[k].1)
  {
    seq(|pairs|, k requires 0 <= k < |pairs| => Wire(ids[k], pairs[k].0, pairs[k].1))
  }

  /** Each series-guide wire passes the guards on the board left by the
      wires before it. */
  lemma SeriesGuards(ids3: seq<string>)
    requires |ids3| == 3
    ensures var w := GuideWires(SeriesGuide, ids3);
      && CanConnect([], VNeg, C1L)
      && CanConnect([w[0]], C1R, C2L)
      && CanConnect([w[0], w[1]], C2R, VPos)
  {
    var w := GuideWires(SeriesGuide, ids3);
    Extend([], w[0], C1R, C2L);
    Extend([], w[0], C2R, VPos);
    Extend([w[0]], w[1], C2R, VPos);
    assert [] + [w[0]] == [w[0]];
    assert [w[0]] + [w[1]] == [w[0], w[1]];
  }

  /** No terminal carries more than two of the series guide's wires. */
  lemma SeriesCounts(ids3: seq<string>, n: NodeId)
    requires |ids3| == 3
    ensures Connections(GuideWires(SeriesGuide, ids3), n) <= MaxConnections
  {
    var w := GuideWires(SeriesGuide, ids3);
    assert w == [w[0], w[1], w[2]];
    ConnectionsAppend([], w[0], n);
    ConnectionsAppend([w[0]], w[1], n);
    ConnectionsAppend([w[0], w[1]], w[2], n);
    assert [] + [w[0]] == [w[0]];
    assert [w[0]] + [w[1]] == [w[0], w[1]];
    assert [w[0], w[1]] + [w[2]] == [w[0], w[1], w[2]];
  }

  /** The series guide's wires form a well-formed board. */
  lemma SeriesWellFormed(ids3: seq<string>)
    requires |ids3| == 3
    ensures WellFormed(GuideWires(SeriesGuide, ids3))
  {
    var w := GuideWires(SeriesGuide, ids3);
    assert w == [w[0], w[1], w[2]];
    forall n: NodeId
      ensures Connections(w, n) <= MaxConnections
    {
      SeriesCounts(ids3, n);
    }
  }

  /** Following the series guide on an empty board accepts every wire:
      the result is exactly the guide's wires, in order, and well formed. */
  lemma SeriesGuideRealisable(ids3: seq<string>)
    requires |ids3| == 3
    ensures var s := ConnectAll([], SeriesGuide, ids3);
      |s| == 3 && WellFormed(s)
      && forall k :: 0 <= k < 3 ==> s[k] == Wire(ids3[k], SeriesGuide[k].0, SeriesGuide[k].1)
  {
    var g, w := SeriesGuide, GuideWires(SeriesGuide, ids3);
    SeriesGuards(ids3);
    SeriesWellFormed(ids3);
    Accepted([], VNeg, C1L, ids3[0]);
    Accepted([w[0]], C1R, C2L, ids3[1]);
    Accepted([w[0], w[1]], C2R, VPos, ids3[2]);
    assert [] + [w[0]] == [w[0]];
    assert [w[0]] + [w[1]] == [w[0], w[1]];
    assert [w[0], w[1]] + [w[2]] == w;
    ConnectAllStep([], g, ids3);
    ConnectAllStep([w[0]], g[1..], ids3[1..]);
    ConnectAllStep([w[0], w[1]], g[2..], ids3[2..]);
    assert g[3..] == [];
  }

  /** Each parallel-guide wire passes the guards on the board left by the
      wires before it. */
  lemma ParallelGuards(ids4: seq<string>)
    requires |ids4| == 4
    ensures var w := GuideWires(ParallelGuide, ids4);
      && CanConnect([], VNeg, C1L)
      && CanConnect([w[0]], VNeg, C2L)
      && CanConnect([w[0], w[1]], C1R, VPos)
      && CanConnect([w[0], w[1], w[2]], C2R, VPos)
  {
    var w := GuideWires(ParallelGuide, ids4);
    Extend([], w[0], VNeg, C2L);
    Extend([], w[0], C1R, VPos);
    Extend([w[0]], w[1], C1R, VPos);
    Extend([], w[0], C2R, VPos);
    Extend([w[0]], w[1], C2R, VPos);
    Extend([w[0], w[1]], w[2], C2R, VPos);
    assert [] + [w[0]] == [w[0]];
    assert [w[0]] + [w[1]] == [w[0], w[1]];
    assert [w[0], w[1]] + [w[2]] == [w[0], w[1], w[2]];
  }

  /** No terminal carries more than two of the parallel guide's wires. */
  lemma ParallelCounts(ids4: seq<string>, n: NodeId)
    requires |ids4| == 4
    ensures Connections(GuideWires(ParallelGuide, ids4), n) <= MaxConnections
  {
    var w := GuideWires(ParallelGuide, ids4);
    assert w == [w[0], w[1], w[2], w[3]];
    ConnectionsAppend([], w[0], n);
    ConnectionsAppend([w[0]], w[1], n);
    ConnectionsAppend([w[0], w[1]], w[2], n);
    ConnectionsAppend([w[0], w[1], w[2]], w[3], n);
    assert [] + [w[0]] == [w[0]];
    assert [w[0]] + [w[1]] == [w[0], w[1]];
    assert [w[0], w[1]] + [w[2]] == [w[0], w[1], w[2]];
    assert [w[0], w[1], w[2]] + [w[3]] == [w[0], w[1], w[2], w[3]];
  }

  /** The parallel guide's wires form a well-formed board. */
  lemma ParallelWellFormed(ids4: seq<string>)
    requires |ids4| == 4
    ensures WellFormed(GuideWires(ParallelGuide, ids4))
  {
    var w := GuideWires(ParallelGuide, ids4);
    assert w == [w[0], w[1], w[2], w[3]];
    forall n: NodeId
      ensures Connections(w, n) <= MaxConnections
    {
      ParallelCounts(ids4, n);
    }
  }

  /** Following the parallel guide on an empty board accepts every wire:
      the result is exactly the guide's wires, in order, and well formed. */
  lemma ParallelGuideRealisable(ids4: seq<string>)
    requires |ids4| == 4
    ensures var p := ConnectAll([], ParallelGuide, ids4);
      |p| == 4 && WellFormed(p)
      && forall k :: 0 <= k < 4 ==> p[k] == Wire(ids4[k], ParallelGuide[k].0, ParallelGuide[k].1)
  {
    var g, w := ParallelGuide, GuideWires(ParallelGuide, ids4);
    ParallelGuards(ids4);
    ParallelWellFormed(ids4);
    Accepted([], VNeg, C1L, ids4[0]);
    Accepted([w[0]], VNeg, C2L, ids4[1]);
    Accepted([w[0], w[1]], C1R, VPos, ids4[2]);
    Accepted([w[0], w[1], w[2]], C2R, VPos, ids4[3]);
    assert [] + [w[0]] == [w[0]];
    assert [w[0]] + [w[1]] == [w[0], w[1]];
    assert [w[0], w[1]] + [w[2]] == [w[0], w[1], w[2]];
    assert [w[0], w[1], w[2]] + [w[3]] == w;
    ConnectAllStep([], g, ids4);
    ConnectAllStep([w[0]], g[1..], ids4[1..]);
    ConnectAllStep([w[0], w[1]], g[2..], ids4[2..]);
    ConnectAllStep([w[0], w[1], w[2]], g[3..], ids4[3..]);
    assert g[4..] == [];
  }
}
