/** `layoutNodes`: positions every node from the levels `calculateLevels` finds. Level `L`
    sits `L * 120` down; its nodes are spread 300 apart, centred on `x = 0`. */
module Layout {
  import opened Maybe
  import opened Graph
  import opened Levels

  const LevelWidth := 300
  const LevelHeight := 120

  /** `startX = -(nodesInLevel.length - 1) * levelWidth / 2`: the width is even, so the
      division is exact. */
  function StartX(count: nat): (x: int)
    ensures x == (1 - count) * 150
  {
    (-(count - 1) * LevelWidth) / 2
  }

  /** The position of the `index`-th of `count` nodes on level `level`. */
  function Slot(count: nat, index: nat, level: nat): Pos {
    Pos(StartX(count) + index * LevelWidth, level * LevelHeight)
  }

  /** A level is centred: the `i`-th node from the left and the `i`-th from the right
      mirror each other about `x = 0`, at the same height. */
  lemma SlotsCentred(count: nat, i: nat, level: nat)
    requires i < count
    ensures Slot(count, i, level).x + Slot(count, count - 1 - i, level).x == 0
    ensures Slot(count, i, level).y == Slot(count, count - 1 - i, level).y
  {
  }

  /** Neighbours on a level are `levelWidth` apart, and levels are `levelHeight` apart. */
  lemma SlotsSpaced(count: nat, i: nat, level: nat)
    ensures Slot(count, i + 1, level).x - Slot(count, i, level).x == LevelWidth
    ensures Slot(count, i, level + 1).y - Slot(count, i, level).y == LevelHeight
  {
  }

  /** Two slots of distinct levels hold distinct ids. */
  lemma DistinctSlots(levels: NodeLevels, L1: nat, i1: nat, L2: nat, i2: nat)
    requires Distinct(levels)
    requires L1 < |levels| && i1 < |levels[L1]| && L2 < |levels| && i2 < |levels[L2]|
    requires levels[L1][i1] == levels[L2][i2]
    ensures L1 == L2 && i1 == i2
  {
    assert levels[L1][i1] in levels[L1] && levels[L2][i2] in levels[L2];
    assert L1 < L2 ==> Disjoint(levels[L1], levels[L2]);
    assert L2 < L1 ==> Disjoint(levels[L2], levels[L1]);
    assert NoDup(levels[L1]);
  }

  /** Slot `(L', i')` comes before slot `(L, i)` in the order positions are written. */
  predicate Before(L': nat, i': nat, L: nat, i: nat) {
    L' < L || (L' == L && i' < i)
  }

  /** Only the position differs. */
  predicate SameButPosition(a: Node, b: Node) {
    a == b.(position := a.position)
  }

  /** Every recorded slot before `(L, i)` holds its node, when ids are positions and no
      id is recorded twice. */
  predicate SlotsBefore(nodes: seq<Node>, levels: NodeLevels, r: seq<Node>, L: nat, i: nat)
    requires |r| == |nodes|
  {
    IdsAreIndices(nodes) && Distinct(levels) ==>
      forall L', i' ::
        0 <= L' < |levels| && 0 <= i' < |levels[L']| && Before(L', i', L, i) && levels[L'][i'] < |nodes| ==>
          r[levels[L'][i']].position == Slot(|levels[L']|, i', L')
  }

  /** `r` differs from `nodes` in positions only, and only for recorded ids. */
  predicate Repositioned(nodes: seq<Node>, levels: NodeLevels, r: seq<Node>) {
    && |r| == |nodes|
    && (forall j :: 0 <= j < |r| ==> SameButPosition(r[j], nodes[j]))
    && (forall j :: 0 <= j < |r| && nodes[j].id !in Placed(levels) ==> r[j].position == nodes[j].position)
  }

  /** The `Object.keys(nodeLevels).forEach` loop: each id of level `L`, the `index`-th
      one, has its node (the first with that id) moved to `Slot(|level|, index, L)`. A node
      whose id no level records keeps its position. When ids are positions and no id is
      recorded twice, the node of every recorded id ends at that id's slot. */
  method PositionNodes(nodes: seq<Node>, levels: NodeLevels) returns (r: seq<Node>)
    ensures |r| == |nodes|
    ensures forall j :: 0 <= j < |r| ==> SameButPosition(r[j], nodes[j])
    ensures forall j :: 0 <= j < |r| && nodes[j].id !in Placed(levels) ==> r[j].position == nodes[j].position
    ensures IdsAreIndices(nodes) && Distinct(levels) ==>
      forall L, i :: 0 <= L < |levels| && 0 <= i < |levels[L]| && levels[L][i] < |nodes| ==>
        r[levels[L][i]].position == Slot(|levels[L]|, i, L)
  {
    r := nodes;
    var L := 0;
    while L < |levels|
      invariant L <= |levels| && Repositioned(nodes, levels, r)
      invariant SlotsBefore(nodes, levels, r, L, 0)
    {
      r := PositionLevel(nodes, levels, L, r);
      L := L + 1;
    }
    assert SlotsBefore(nodes, levels, r, |levels|, 0);
  }

  /** The inner `nodesInLevel.forEach`: the nodes of level `L`, left to right. */
  method PositionLevel(nodes: seq<Node>, levels: NodeLevels, L: nat, r0: seq<Node>) returns (r: seq<Node>)
    requires L < |levels| && Repositioned(nodes, levels, r0) && SlotsBefore(nodes, levels, r0, L, 0)
    ensures Repositioned(nodes, levels, r) && SlotsBefore(nodes, levels, r, L + 1, 0)
  {
    var exact := IdsAreIndices(nodes) && Distinct(levels);
    r := r0;
    var i := 0;
    while i < |levels[L]|
      invariant i <= |levels[L]| && Repositioned(nodes, levels, r)
      invariant SlotsBefore(nodes, levels, r, L, i)
    {
      var id := levels[L][i];
      match FindIndex(nodes, id) {
        case Some(j) =>
          assert id in Placed(levels) by {
            assert id in levels[L];
          }
          if exact {
            FindIndexOfIndexed(nodes, id);
            PlaceNext(nodes, levels, r, L, i);
          }
          r := r[j := r[j].(position := Slot(|levels[L]|, i, L))];
        case None =>
          if exact {
            FindIndexOfIndexed(nodes, id);
          }
      }
      i := i + 1;
    }
  }

  /** Writing the slot of the `i`-th id of level `L` into its node keeps every slot
      written before it, since no other slot holds that id. */
  lemma PlaceNext(nodes: seq<Node>, levels: NodeLevels, r: seq<Node>, L: nat, i: nat)
    requires IdsAreIndices(nodes) && Distinct(levels) && |r| == |nodes|
    requires L < |levels| && i < |levels[L]| && levels[L][i] < |nodes|
    requires forall L', i' ::
      0 <= L' < |levels| && 0 <= i' < |levels[L']| && Before(L', i', L, i) && levels[L'][i'] < |nodes| ==>
        r[levels[L'][i']].position == Slot(|levels[L']|, i', L')
    ensures var r' := r[levels[L][i] := r[levels[L][i]].(position := Slot(|levels[L]|, i, L))];
      forall L', i' ::
        0 <= L' < |levels| && 0 <= i' < |levels[L']| && Before(L', i', L, i + 1) && levels[L'][i'] < |nodes| ==>
          r'[levels[L'][i']].position == Slot(|levels[L']|, i', L')
  {
    forall L', i' | 0 <= L' < |levels| && 0 <= i' < |levels[L']| && Before(L', i', L, i) && levels[L'][i'] == levels[L][i]
      ensures false
    {
      DistinctSlots(levels, L', i', L, i);
    }
  }

  /** `layoutNodes(nodes, edges)`: levels by breadth-first search, then positions. Only
      positions change. For the tree a traversal builds, node `j` at depth `D` ends in row
      `D`, at the slot given by the number of nodes of depth `D` before it, among all the
      nodes of depth `D`: each row lists its nodes in id order, centred. */
  method LayoutNodes(nodes: seq<Node>, edges: seq<Edge>) returns (r: seq<Node>)
    requires |nodes| > 0
    ensures |r| == |nodes|
    ensures forall j :: 0 <= j < |r| ==> SameButPosition(r[j], nodes[j])
    ensures TreeShaped(nodes, edges) && NearestParents(edges) ==>
      forall j :: 0 <= j < |r| ==>
        var D := Depth(edges, j);
        r[j].position == Slot(|AtDepth(edges, |nodes|, D)|, |AtDepth(edges, j, D)|, D)
  {
    var levels := CalculateLevels(nodes, edges);
    r := PositionNodes(nodes, levels);
    if TreeShaped(nodes, edges) && NearestParents(edges) {
      forall j | 0 <= j < |r|
        ensures r[j].position == Slot(|AtDepth(edges, |nodes|, Depth(edges, j))|, |AtDepth(edges, j, Depth(edges, j))|, Depth(edges, j))
      {
        var D := Depth(edges, j);
        AtDepthIndex(edges, |nodes|, j, D);
        ByDepthIsAtDepth(edges, |nodes|, levels, D);
      }
    }
  }

  /** The ids of depth `D` below `j` are exactly those listed before `j` among all ids of
      depth `D`. */
  lemma {:induction false} AtDepthIndex(edges: seq<Edge>, n: nat, j: nat, D: nat)
    requires j < n && Depth(edges, j) == D
    decreases n
    ensures var k := |AtDepth(edges, j, D)|; k < |AtDepth(edges, n, D)| && AtDepth(edges, n, D)[k] == j
  {
    if n > j + 1 {
      AtDepthIndex(edges, n - 1, j, D);
    }
  }
}
