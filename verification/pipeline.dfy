/** `createNodesAndEdges`: the traversal followed by the layout, and the `generateTree`
    handler that runs it on freshly parsed input. */
module Pipeline {
  import opened Maybe
  import opened Json
  import opened Graph
  import opened Traversal
  import opened Levels
  import opened Layout

  /** The number of entries of `es` at level `L`. */
  function CountAt(es: seq<Entry>, L: nat): (c: nat)
    ensures c <= |es|
  {
    if |es| == 0 then 0
    else CountAt(es[..|es| - 1], L) + (if es[|es| - 1].level == L then 1 else 0)
  }

  /** The nodes and edges record the pre-order listing `es` of the document: node `i` is
      the `i`-th value listed, with its type, label and highlight cleared; the root's path
      is computed from `$`; and edge `k` leads into node `k + 1` from the nearest earlier
      node one level up, whose path the child's path extends. */
  predicate Traced(es: seq<Entry>, nodes: seq<Node>, edges: seq<Edge>)
    requires |es| == |nodes| && TreeShaped(nodes, edges)
  {
    && (forall i :: 0 <= i < |nodes| ==>
          && nodes[i].value == es[i].value
          && nodes[i].kind == NodeType(es[i].value)
          && nodes[i].labelText == Label(es[i].key, es[i].value)
          && !nodes[i].highlighted)
    && nodes[0].path == NodePath("$", es[0].key, nodes[0].kind)
    && (forall k :: 0 <= k < |edges| ==>
          var s := edges[k].source;
          && es[k + 1].level == es[s].level + 1
          && (forall m :: s < m <= k ==> es[m].level > es[s].level)
          && nodes[k + 1].path == NodePath(nodes[s].path, es[k + 1].key, nodes[k + 1].kind))
  }

  /** Node `i`, listed at level `L`, sits in row `L` at the slot given by how many entries
      of level `L` precede it among all entries of level `L`. */
  predicate LaidOut(es: seq<Entry>, nodes: seq<Node>)
    requires |es| == |nodes|
  {
    forall i :: 0 <= i < |nodes| ==>
      nodes[i].position == Slot(CountAt(es, es[i].level), CountAt(es[..i], es[i].level), es[i].level)
  }

  /** Each entry's level is the depth of its node. */
  predicate LevelsAreDepths(es: seq<Entry>, edges: seq<Edge>) {
    forall i :: 0 <= i < |es| ==> es[i].level == Depth(edges, i)
  }

  lemma {:induction false} AtDepthCount(es: seq<Entry>, edges: seq<Edge>, m: nat, D: nat)
    requires LevelsAreDepths(es, edges) && m <= |es|
    decreases m
    ensures |AtDepth(edges, m, D)| == CountAt(es[..m], D)
  {
    if m > 0 {
      AtDepthCount(es, edges, m - 1, D);
      assert es[..m][..m - 1] == es[..m - 1];
    }
  }

  lemma WalkTraced(w: Walk)
    requires Inv(w) && |w.nodes| > 0
    ensures TreeShaped(w.nodes, w.edges) && Traced(w.calls, w.nodes, w.edges)
  {
    forall i | 0 <= i < |w.nodes|
      ensures w.nodes[i].value == w.calls[i].value && w.nodes[i].kind == NodeType(w.calls[i].value)
      ensures w.nodes[i].labelText == Label(w.calls[i].key, w.calls[i].value) && !w.nodes[i].highlighted
    {
      assert NodeFits(w, i);
    }
    assert NodeFits(w, 0);
    forall k | 0 <= k < |w.edges|
      ensures w.nodes[k + 1].path == NodePath(w.nodes[w.edges[k].source].path, w.calls[k + 1].key, w.nodes[k + 1].kind)
      ensures ParentNearest(w, k)
    {
      assert NodeFits(w, k + 1);
    }
  }

  /** Moving nodes changes nothing the traversal recorded. */
  lemma TracedIgnoresPositions(es: seq<Entry>, a: seq<Node>, b: seq<Node>, edges: seq<Edge>)
    requires |es| == |b| && TreeShaped(b, edges) && Traced(es, b, edges)
    requires |a| == |b| && forall j :: 0 <= j < |a| ==> SameButPosition(a[j], b[j])
    ensures TreeShaped(a, edges) && Traced(es, a, edges)
  {
    assert forall j :: 0 <= j < |a| ==> a[j].id == b[j].id && a[j].path == b[j].path;
  }

  /** The layout's slots, counted by depth in the tree of edges, are the slots counted by
      level in the listing. */
  lemma DepthLaidOut(es: seq<Entry>, edges: seq<Edge>, nodes: seq<Node>)
    requires LevelsAreDepths(es, edges) && |nodes| == |es|
    requires forall j :: 0 <= j < |nodes| ==>
      var D := Depth(edges, j);
      nodes[j].position == Slot(|AtDepth(edges, |nodes|, D)|, |AtDepth(edges, j, D)|, D)
    ensures LaidOut(es, nodes)
  {
    forall i | 0 <= i < |nodes|
      ensures nodes[i].position == Slot(CountAt(es, es[i].level), CountAt(es[..i], es[i].level), es[i].level)
    {
      AtDepthCount(es, edges, |nodes|, es[i].level);
      AtDepthCount(es, edges, i, es[i].level);
      assert es[..|nodes|] == es;
    }
  }

  /** What the layout needs from a finished walk, and what the result must keep. */
  lemma WalkFacts(w: Walk)
    requires Inv(w) && |w.nodes| > 0
    ensures TreeShaped(w.nodes, w.edges) && NearestParents(w.edges)
    ensures Traced(w.calls, w.nodes, w.edges) && LevelsAreDepths(w.calls, w.edges)
  {
    WalkNearestParents(w);
    WalkTraced(w);
    forall i | 0 <= i < |w.calls|
      ensures w.calls[i].level == Depth(w.edges, i)
    {
      LevelIsDepth(w, i);
    }
  }

  /** `createNodesAndEdges(json)`: one node per value of the document in pre-order, one edge
      per non-root node from its parent, and every node laid out by level. */
  method CreateNodesAndEdges(v: Json) returns (nodes: seq<Node>, edges: seq<Edge>)
    ensures |nodes| == Size(v) && TreeShaped(nodes, edges)
    ensures Traced(PreOrder(v, KRoot, 0), nodes, edges)
    ensures LaidOut(PreOrder(v, KRoot, 0), nodes)
  {
    var w := CreateWalk(v);
    WalkFacts(w);
    nodes := LayoutNodes(w.nodes, w.edges);
    edges := w.edges;
    DepthLaidOut(w.calls, edges, nodes);
    TracedIgnoresPositions(w.calls, nodes, w.nodes, edges);
  }

  /** The part of the component's state the handlers below touch: the graph, the
      `error` line under the input, and the `searchResult` line. */
  datatype View = View(nodes: seq<Node>, edges: seq<Edge>, error: string, searchResult: string)

  /** What `JSON.parse` made of the input: a value, or an exception with its message. */
  datatype ParseOutcome = Parsed(value: Json) | ParseFailed(message: string)

  /** `generateTree`: input that does not parse only sets the error line, leaving the
      graph and the search line as they were; input that parses clears both lines and
      replaces the graph with the one `createNodesAndEdges` builds for it. */
  method GenerateTree(view: View, input: ParseOutcome) returns (r: View)
    ensures input.ParseFailed? ==>
      r == view.(error := "Invalid JSON: " + input.message)
    ensures input.Parsed? ==>
      && r.error == "" && r.searchResult == ""
      && |r.nodes| == Size(input.value) && TreeShaped(r.nodes, r.edges)
      && Traced(PreOrder(input.value, KRoot, 0), r.nodes, r.edges)
      && LaidOut(PreOrder(input.value, KRoot, 0), r.nodes)
  {
    match input
    case ParseFailed(msg) =>
      r := view.(error := "Invalid JSON: " + msg);
    case Parsed(v) =>
      var nodes, edges := CreateNodesAndEdges(v);
      r := View(nodes, edges, "", "");
  }
}
