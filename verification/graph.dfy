/** The graph records `createNodesAndEdges` hands to the renderer. Presentation fields
    (colours, styles, node and edge `type`) are not modelled; the glow styling that marks
    a search hit is the boolean `highlighted`. */
module Graph {
  import opened Maybe
  import opened Text
  import opened Json

  datatype Pos = Pos(x: int, y: int)

  /** Every node starts at `{ x: 0, y: 0 }` until the layout writes its position. */
  const Origin := Pos(0, 0)

  /** A node: its number `n` (rendered as the id `node-<n>`), label text, path, value and type
      (the `data` record), position, and whether a search highlights it. */
  datatype Node = Node(
    id: nat,
    labelText: string,
    path: string,
    value: Json,
    kind: Kind,
    position: Pos,
    highlighted: bool)

  /** An edge from the parent node to the child node, by node number. */
  datatype Edge = Edge(source: nat, target: nat)

  function NodeIdText(n: nat): string {
    "node-" + Decimal(n)
  }

  /** Node numbers stand for their id strings: two ids are equal strings exactly when
      the numbers are equal, so the source's string comparisons are number comparisons. */
  lemma NodeIdTextInjective(a: nat, b: nat)
    ensures NodeIdText(a) == NodeIdText(b) <==> a == b
  {
    if NodeIdText(a) == NodeIdText(b) {
      assert Decimal(a) == NodeIdText(a)[5..];
      DecimalInjective(a, b);
    }
  }

  /** `nodes.find(n => n.id === id)`, as the index of the first node with that id. */
  function FindIndex(nodes: seq<Node>, id: nat): (r: Option<nat>)
    ensures r.Some? ==> r.value < |nodes| && nodes[r.value].id == id
    ensures r.Some? ==> forall j :: 0 <= j < r.value ==> nodes[j].id != id
    ensures r.None? ==> forall j :: 0 <= j < |nodes| ==> nodes[j].id != id
  {
    if |nodes| == 0 then None
    else if nodes[0].id == id then Some(0)
    else match FindIndex(nodes[1..], id)
      case None => None
      case Some(j) => Some(j + 1)
  }

  /** Node ids equal their positions in the list, as the traversal produces them. */
  predicate IdsAreIndices(nodes: seq<Node>) {
    forall i :: 0 <= i < |nodes| ==> nodes[i].id == i
  }

  lemma FindIndexOfIndexed(nodes: seq<Node>, id: nat)
    requires IdsAreIndices(nodes)
    ensures FindIndex(nodes, id) == if id < |nodes| then Some(id) else None
  {
    if id < |nodes| {
      assert nodes[id].id == id;
    }
  }

  /** A non-empty node list numbered by position, whose edge `k` leads from an earlier
      node into node `k + 1`: the shape `createNodesAndEdges` produces. */
  predicate TreeShaped(nodes: seq<Node>, edges: seq<Edge>) {
    && |nodes| > 0
    && IdsAreIndices(nodes)
    && |edges| == |nodes| - 1
    && forall k :: 0 <= k < |edges| ==> edges[k].target == k + 1 && edges[k].source <= k
  }

  /** The number of edges on the way up from node `i` to node 0, following the edge that
      leads into each node (0 where that edge is missing). */
  function Depth(edges: seq<Edge>, i: nat): nat
    decreases i
  {
    if i == 0 || i > |edges| then 0
    else if edges[i - 1].source < i then Depth(edges, edges[i - 1].source) + 1
    else 0
  }

  /** Every node strictly between a parent and its child (in id order) lies deeper than the
      parent: a parent's subtree occupies a contiguous run of ids, as in a pre-order. */
  predicate NearestParents(edges: seq<Edge>) {
    forall k, m :: 0 <= k < |edges| && edges[k].source < m <= k ==> Depth(edges, m) > Depth(edges, edges[k].source)
  }

  /** One step up: the depth of node `k + 1` is one more than its parent's. */
  lemma DepthStep(edges: seq<Edge>, k: nat)
    requires k < |edges| && edges[k].target == k + 1 && edges[k].source <= k
    ensures Depth(edges, k + 1) == Depth(edges, edges[k].source) + 1
  {
  }
}
