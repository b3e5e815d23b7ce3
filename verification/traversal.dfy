/** The inner `traverse` of `createNodesAndEdges`: a recursive pre-order walk that
    emits one node per JSON value and one parent-to-child edge per non-root node.
    The closure's shared state (the `nodes` and `edges` arrays and the `nodeId`
    counter) is threaded through explicitly as a `Walk`. */
module Traversal {
  import opened Maybe
  import opened Text
  import opened Json
  import opened Graph

  // ---------------------------------------------------------------------------
  // What one call of `traverse` computes for its node
  // ---------------------------------------------------------------------------

  /** The label: `{}` or `[]` followed by `" " + key` unless the key is `'root'`;
      for a primitive, `key: value` with `null` written out. */
  function Label(key: Key, v: Json): string {
    match NodeType(v)
    case ObjectNode => if IsRootKey(key) then "{}" else "{} " + KeyText(key)
    case ArrayNode => if IsRootKey(key) then "[]" else "[] " + KeyText(key)
    case PrimitiveNode => KeyText(key) + ": " + (if v.JNull? then "null" else Stringify(v))
  }

  /** The path of a node whose parent's path is `base` (the root's base is `$`). A
      container keyed `'root'` resets to `$`; any other container appends `.key`, also
      for an array index; a primitive appends `[i]` for an index and `.key` otherwise. */
  function NodePath(base: string, key: Key, kind: Kind): string {
    if IsContainer(kind) then
      if IsRootKey(key) then "$" else base + "." + KeyText(key)
    else if key.KIndex? then base + "[" + KeyText(key) + "]"
    else base + "." + KeyText(key)
  }

  /** `nodes.find(n => n.id === parentId)?.data?.jsonPath || ''`. */
  function LookupPath(nodes: seq<Node>, id: nat): string {
    match FindIndex(nodes, id)
    case Some(j) => nodes[j].path
    case None => ""
  }

  // ---------------------------------------------------------------------------
  // The walk state and its invariant
  // ---------------------------------------------------------------------------

  /** The closure's state: nodes and edges pushed so far and the `nodeId` counter. The
      `obj`, `key` and `level` arguments of the call that created each node are recorded
      alongside in `calls`; the source keeps them only as arguments. */
  datatype Walk = Walk(nodes: seq<Node>, edges: seq<Edge>, calls: seq<Entry>, counter: nat)

  const Start := Walk([], [], [], 0)

  /** Node `i` is number `i`, the counter is the next number, and edge `k` leads from an
      earlier node into node `k + 1`: every node but the first has exactly one incoming edge. */
  predicate Shaped(w: Walk) {
    && w.counter == |w.nodes| == |w.calls|
    && IdsAreIndices(w.nodes)
    && |w.edges| == (if |w.nodes| == 0 then 0 else |w.nodes| - 1)
    && (forall k :: 0 <= k < |w.edges| ==> w.edges[k].target == k + 1 && w.edges[k].source <= k)
  }

  /** The path of the parent of node `i`, or `$` for the first node. */
  function ParentPath(w: Walk, i: nat): string
    requires Shaped(w) && i < |w.nodes|
  {
    if i == 0 then "$" else w.nodes[w.edges[i - 1].source].path
  }

  /** Node `i` holds the value its call received and the type, label and path that call
      computes, with the initial position and no highlight. */
  predicate NodeFits(w: Walk, i: nat)
    requires Shaped(w) && i < |w.nodes|
  {
    var n := w.nodes[i];
    var c := w.calls[i];
    && n.value == c.value
    && n.kind == NodeType(n.value)
    && n.labelText == Label(c.key, n.value)
    && n.path == NodePath(ParentPath(w, i), c.key, n.kind)
    && n.position == Origin
    && !n.highlighted
  }

  /** The parent of node `k + 1` is the nearest earlier node one level up. */
  predicate ParentNearest(w: Walk, k: nat)
    requires Shaped(w) && k < |w.edges|
  {
    var s := w.edges[k].source;
    && w.calls[k + 1].level == w.calls[s].level + 1
    && forall m :: s < m <= k ==> w.calls[m].level > w.calls[s].level
  }

  predicate Inv(w: Walk) {
    && Shaped(w)
    && (|w.calls| > 0 ==> w.calls[0].level == 0)
    && (forall k :: 0 <= k < |w.edges| ==> ParentNearest(w, k))
    && (forall i :: 0 <= i < |w.nodes| ==> NodeFits(w, i))
  }

  /** The contexts `traverse` is called in: once for the whole document on empty state
      (no parent, level 0), and for each child of an already created node, one level
      below it, while every node created after that parent lies below it. */
  predicate CallFits(w: Walk, parent: Option<nat>, level: nat)
    requires Shaped(w)
  {
    match parent
    case None => w == Start && level == 0
    case Some(p) =>
      && p < |w.nodes|
      && level == w.calls[p].level + 1
      && forall m :: p < m < |w.nodes| ==> w.calls[m].level > w.calls[p].level
  }

  /** `w2` continues `w1`: everything in `w1` is still there, unchanged. */
  predicate Extends(w2: Walk, w1: Walk) {
    w1.nodes <= w2.nodes && w1.edges <= w2.edges && w1.calls <= w2.calls
  }

  // ---------------------------------------------------------------------------
  // The traversal
  // ---------------------------------------------------------------------------

  /** The part of one `traverse` call before it recurses: take the next id, build the
      node from the parent's path, push it, and push the edge from the parent. */
  function Visit(v: Json, parent: Option<nat>, key: Key, level: nat, w: Walk): (r: Walk)
    ensures Extends(r, w)
    ensures |r.nodes| == |w.nodes| + 1 && r.counter == w.counter + 1
    ensures r.calls == w.calls + [Entry(key, v, level)]
    ensures |r.edges| == |w.edges| + (if parent.Some? then 1 else 0)
    ensures r.nodes[|w.nodes|].id == w.counter
    ensures parent.Some? ==> r.edges[|w.edges|] == Edge(parent.value, w.counter)
  {
    var id := w.counter;
    var kind := NodeType(v);
    var base := match parent case None => "$" case Some(p) => LookupPath(w.nodes, p);
    var node := Node(id, Label(key, v), NodePath(base, key, kind), v, kind, Origin, false);
    var edges := if parent.Some? then w.edges + [Edge(parent.value, id)] else w.edges;
    Walk(w.nodes + [node], edges, w.calls + [Entry(key, v, level)], w.counter + 1)
  }

  /** `traverse(v, parent, key, level)`: the node for `v`, then the subtrees of its
      children in order. */
  function Traverse(v: Json, parent: Option<nat>, key: Key, level: nat, w: Walk): Walk
    decreases v, Arity(v) + 1
  {
    TraverseChildren(v, w.counter, level + 1, 0, Visit(v, parent, key, level, w))
  }

  /** The `forEach` over the children of node `self` from the `j`-th on; each child is
      traversed one level below. */
  function TraverseChildren(v: Json, self: nat, level: nat, j: nat, w: Walk): Walk
    decreases v, Arity(v) - j
  {
    if j >= Arity(v) then w
    else TraverseChildren(v, self, level, j + 1, Traverse(ChildValue(v, j), Some(self), ChildKey(v, j), level, w))
  }

  /** `traverse(json)`: the whole document, from empty state. */
  function CreateWalk(v: Json): (r: Walk)
    ensures Inv(r)
    ensures |r.nodes| == Size(v) && |r.edges| == |r.nodes| - 1
    ensures r.calls == PreOrder(v, KRoot, 0)
  {
    TraverseSizes(v, None, KRoot, 0, Start);
    TraverseCalls(v, None, KRoot, 0, Start);
    TraverseKeepsInv(v, None, KRoot, 0, Start);
    Traverse(v, None, KRoot, 0, Start)
  }

  // ---------------------------------------------------------------------------
  // What one call adds
  // ---------------------------------------------------------------------------

  /** `r` is `w` with `n` more nodes (and as many more ids taken) and `e` more edges. */
  predicate Added(r: Walk, w: Walk, n: nat, e: nat) {
    |r.nodes| == |w.nodes| + n && r.counter == w.counter + n && |r.edges| == |w.edges| + e
  }

  lemma AddedTransitive(r: Walk, mid: Walk, w: Walk, n1: nat, e1: nat, n2: nat, e2: nat)
    requires Added(mid, w, n1, e1) && Added(r, mid, n2, e2)
    ensures Added(r, w, n1 + n2, e1 + e2)
  {
  }

  /** One call adds `Size(v)` nodes and an edge for every one of them except a root. */
  lemma {:induction false} TraverseSizes(v: Json, parent: Option<nat>, key: Key, level: nat, w: Walk)
    decreases v, Arity(v) + 1
    ensures Added(Traverse(v, parent, key, level, w), w, Size(v), if parent.Some? then Size(v) else Size(v) - 1)
  {
    var w1 := Visit(v, parent, key, level, w);
    TraverseChildrenSizes(v, w.counter, level + 1, 0, w1);
    AddedTransitive(Traverse(v, parent, key, level, w), w1, w, 1, if parent.Some? then 1 else 0, SizesFrom(v, 0), SizesFrom(v, 0));
  }

  lemma {:induction false} TraverseChildrenSizes(v: Json, self: nat, level: nat, j: nat, w: Walk)
    decreases v, Arity(v) - j
    ensures Added(TraverseChildren(v, self, level, j, w), w, SizesFrom(v, j), SizesFrom(v, j))
  {
    if j < Arity(v) {
      var c, k := ChildValue(v, j), ChildKey(v, j);
      var w1 := Traverse(c, Some(self), k, level, w);
      TraverseSizes(c, Some(self), k, level, w);
      TraverseChildrenSizes(v, self, level, j + 1, w1);
      AddedTransitive(TraverseChildren(v, self, level, j, w), w1, w, Size(c), Size(c), SizesFrom(v, j + 1), SizesFrom(v, j + 1));
    }
  }

  /** One call changes nothing already pushed. */
  lemma {:induction false} TraverseExtends(v: Json, parent: Option<nat>, key: Key, level: nat, w: Walk)
    decreases v, Arity(v) + 1
    ensures Extends(Traverse(v, parent, key, level, w), w)
  {
    var w1 := Visit(v, parent, key, level, w);
    TraverseChildrenExtends(v, w.counter, level + 1, 0, w1);
    ExtendsTransitive(Traverse(v, parent, key, level, w), w1, w);
  }

  lemma {:induction false} TraverseChildrenExtends(v: Json, self: nat, level: nat, j: nat, w: Walk)
    decreases v, Arity(v) - j
    ensures Extends(TraverseChildren(v, self, level, j, w), w)
  {
    if j < Arity(v) {
      var w1 := Traverse(ChildValue(v, j), Some(self), ChildKey(v, j), level, w);
      TraverseExtends(ChildValue(v, j), Some(self), ChildKey(v, j), level, w);
      TraverseChildrenExtends(v, self, level, j + 1, w1);
      ExtendsTransitive(TraverseChildren(v, self, level, j, w), w1, w);
    }
  }

  /** Two appends in a row are one append of the two parts. */
  lemma Chain(r: seq<Entry>, mid: seq<Entry>, w: seq<Entry>, a: seq<Entry>, b: seq<Entry>, c: seq<Entry>)
    requires mid == w + a && r == mid + b && c == a + b
    ensures r == w + c
  {
  }

  lemma ExtendsTransitive(w3: Walk, w2: Walk, w1: Walk)
    requires Extends(w3, w2) && Extends(w2, w1)
    ensures Extends(w3, w1)
  {
  }

  /** The calls one `traverse` makes, in the order the nodes are numbered, are exactly
      the pre-order listing of `v`. */
  lemma {:induction false} TraverseCalls(v: Json, parent: Option<nat>, key: Key, level: nat, w: Walk)
    decreases v, Arity(v) + 1
    ensures Traverse(v, parent, key, level, w).calls == w.calls + PreOrder(v, key, level)
  {
    var w1 := Visit(v, parent, key, level, w);
    TraverseChildrenCalls(v, w.counter, level + 1, 0, w1);
    Chain(Traverse(v, parent, key, level, w).calls, w1.calls, w.calls,
          [Entry(key, v, level)], PreOrderFrom(v, 0, level + 1), PreOrder(v, key, level));
  }

  lemma {:induction false} TraverseChildrenCalls(v: Json, self: nat, level: nat, j: nat, w: Walk)
    decreases v, Arity(v) - j
    ensures TraverseChildren(v, self, level, j, w).calls == w.calls + PreOrderFrom(v, j, level)
  {
    if j < Arity(v) {
      var c, k := ChildValue(v, j), ChildKey(v, j);
      var w1 := Traverse(c, Some(self), k, level, w);
      TraverseCalls(c, Some(self), k, level, w);
      TraverseChildrenCalls(v, self, level, j + 1, w1);
      Chain(TraverseChildren(v, self, level, j, w).calls, w1.calls, w.calls,
            PreOrder(c, k, level), PreOrderFrom(v, j + 1, level), PreOrderFrom(v, j, level));
    }
  }

  /** The first node a call creates is numbered by the counter it found, and its edge,
      if it has a parent, is the first edge the call pushes. */
  lemma TraverseFirst(v: Json, parent: Option<nat>, key: Key, level: nat, w: Walk)
    ensures var r := Traverse(v, parent, key, level, w);
      && |r.nodes| > |w.nodes| && r.nodes[|w.nodes|].id == w.counter
      && (parent.Some? ==> |r.edges| > |w.edges| && r.edges[|w.edges|] == Edge(parent.value, w.counter))
  {
    var w1 := Visit(v, parent, key, level, w);
    TraverseChildrenExtends(v, w.counter, level + 1, 0, w1);
    var r := TraverseChildren(v, w.counter, level + 1, 0, w1);
    assert r.nodes[|w.nodes|] == w1.nodes[|w.nodes|];
    if parent.Some? {
      assert r.edges[|w.edges|] == w1.edges[|w.edges|];
    }
  }

  // ---------------------------------------------------------------------------
  // The traversal keeps the invariant
  // ---------------------------------------------------------------------------

  /** What holds of the nodes and edges of `w1` still holds of them in any continuation. */
  lemma ExtendsKeepsFacts(w2: Walk, w1: Walk)
    requires Shaped(w1) && Shaped(w2) && Extends(w2, w1)
    ensures forall i :: 0 <= i < |w1.nodes| ==> (NodeFits(w2, i) <==> NodeFits(w1, i))
    ensures forall k :: 0 <= k < |w1.edges| ==> (ParentNearest(w2, k) <==> ParentNearest(w1, k))
  {
    forall i | 0 <= i < |w1.nodes|
      ensures NodeFits(w2, i) <==> NodeFits(w1, i)
    {
      assert w2.nodes[i] == w1.nodes[i] && w2.calls[i] == w1.calls[i];
      if i > 0 {
        assert w2.edges[i - 1] == w1.edges[i - 1];
        assert w2.nodes[w1.edges[i - 1].source] == w1.nodes[w1.edges[i - 1].source];
      }
    }
    forall k | 0 <= k < |w1.edges|
      ensures ParentNearest(w2, k) <==> ParentNearest(w1, k)
    {
      assert w2.edges[k] == w1.edges[k];
      assert forall m :: 0 <= m < |w1.calls| ==> w2.calls[m] == w1.calls[m];
    }
  }

  lemma VisitKeepsInv(v: Json, parent: Option<nat>, key: Key, level: nat, w: Walk)
    requires Inv(w) && CallFits(w, parent, level)
    ensures Inv(Visit(v, parent, key, level, w))
  {
    var r := Visit(v, parent, key, level, w);
    VisitFits(v, parent, key, level, w);
    if parent.Some? {
      VisitNearest(v, parent, key, level, w);
    }
    ExtendsKeepsFacts(r, w);
  }

  /** The node a call pushes fits its call. */
  lemma VisitFits(v: Json, parent: Option<nat>, key: Key, level: nat, w: Walk)
    requires Inv(w) && CallFits(w, parent, level)
    ensures var r := Visit(v, parent, key, level, w);
      Shaped(r) && NodeFits(r, |w.nodes|)
  {
    if parent.Some? {
      FindIndexOfIndexed(w.nodes, parent.value);
    }
  }

  /** The edge a call pushes comes from the nearest node one level up. */
  lemma VisitNearest(v: Json, parent: Option<nat>, key: Key, level: nat, w: Walk)
    requires Inv(w) && CallFits(w, parent, level) && parent.Some?
    ensures var r := Visit(v, parent, key, level, w);
      Shaped(r) && ParentNearest(r, |w.edges|)
  {
  }

  lemma {:induction false} TraverseKeepsInv(v: Json, parent: Option<nat>, key: Key, level: nat, w: Walk)
    requires Inv(w) && CallFits(w, parent, level)
    decreases v, Arity(v) + 1
    ensures Inv(Traverse(v, parent, key, level, w))
  {
    VisitKeepsInv(v, parent, key, level, w);
    TraverseChildrenKeepsInv(v, w.counter, level + 1, 0, Visit(v, parent, key, level, w));
  }

  lemma {:induction false} TraverseChildrenKeepsInv(v: Json, self: nat, level: nat, j: nat, w: Walk)
    requires Inv(w) && self < |w.nodes| && level == w.calls[self].level + 1
    requires forall m :: self < m < |w.nodes| ==> w.calls[m].level > w.calls[self].level
    decreases v, Arity(v) - j
    ensures Inv(TraverseChildren(v, self, level, j, w))
  {
    if j < Arity(v) {
      var c := ChildValue(v, j);
      var w1 := Traverse(c, Some(self), ChildKey(v, j), level, w);
      TraverseKeepsInv(c, Some(self), ChildKey(v, j), level, w);
      TraverseCalls(c, Some(self), ChildKey(v, j), level, w);
      PreOrderDeeper(c, ChildKey(v, j), level);
      ChildKeepsParent(w1, w, self, level, PreOrder(c, ChildKey(v, j), level));
      TraverseChildrenKeepsInv(v, self, level, j + 1, w1);
    }
  }

  /** After one child's subtree, node `self` is still the nearest node above the end. */
  lemma ChildKeepsParent(w1: Walk, w: Walk, self: nat, level: nat, added: seq<Entry>)
    requires Shaped(w) && Shaped(w1) && w1.calls == w.calls + added
    requires self < |w.nodes| && level == w.calls[self].level + 1
    requires forall m :: self < m < |w.nodes| ==> w.calls[m].level > w.calls[self].level
    requires AllAtLeast(added, level)
    ensures self < |w1.nodes| && level == w1.calls[self].level + 1
    ensures forall m :: self < m < |w1.nodes| ==> w1.calls[m].level > w1.calls[self].level
  {
    assert w1.calls[self] == w.calls[self];
    forall m | self < m < |w1.nodes|
      ensures w1.calls[m].level > w1.calls[self].level
    {
      if m < |w.nodes| {
        assert w1.calls[m] == w.calls[m];
      } else {
        assert w1.calls[m] == added[m - |w.nodes|];
      }
    }
  }

  // ---------------------------------------------------------------------------
  // What the finished walk looks like
  // ---------------------------------------------------------------------------

  /** The nodes and edges form a tree rooted at node 0: every other node has exactly one
      incoming edge, from an earlier node. */
  lemma WalkIsTree(v: Json)
    ensures TreeShaped(CreateWalk(v).nodes, CreateWalk(v).edges)
  {
  }

  /** The level each node was created at is its depth in the tree of edges. */
  lemma {:induction false} LevelIsDepth(w: Walk, i: nat)
    requires Inv(w) && i < |w.nodes|
    decreases i
    ensures w.calls[i].level == Depth(w.edges, i)
  {
    if i > 0 {
      var s := w.edges[i - 1].source;
      assert ParentNearest(w, i - 1);
      LevelIsDepth(w, s);
    }
  }

  /** A path is `$` or extends the parent's path. */
  lemma NodePathExtends(base: string, key: Key, kind: Kind)
    ensures var p := NodePath(base, key, kind);
      (p == "$" && IsContainer(kind) && IsRootKey(key)) || (base <= p && |p| > |base|)
  {
  }

  /** Every path starts at the JSONPath root `$`, and a path is `$` alone exactly for
      the document root container and for a container keyed `'root'`. */
  lemma {:induction false} PathRooted(w: Walk, i: nat)
    requires Inv(w) && i < |w.nodes|
    decreases i
    ensures "$" <= w.nodes[i].path
    ensures w.nodes[i].path == "$" <==> IsContainer(w.nodes[i].kind) && IsRootKey(w.calls[i].key)
  {
    assert NodeFits(w, i);
    if i > 0 {
      PathRooted(w, w.edges[i - 1].source);
    }
    NodePathExtends(ParentPath(w, i), w.calls[i].key, w.nodes[i].kind);
  }

  /** The first node is the whole document, numbered 0: a container gets the label `{}`
      or `[]` and the path `$`, a primitive the label `root: <value>` and the path
      `$.root`. */
  lemma RootNode(v: Json)
    ensures var n := CreateWalk(v).nodes[0];
      && n.id == 0 && n.value == v && n.kind == NodeType(v)
      && n.path == (if IsScalar(v) then "$.root" else "$")
      && n.labelText == match v
           case JObj(_) => "{}"
           case JArr(_) => "[]"
           case _ => "root: " + (if v.JNull? then "null" else Stringify(v))
  {
    var w := CreateWalk(v);
    assert NodeFits(w, 0);
    assert w.calls[0] == Entry(KRoot, v, 0);
  }

  /** The edges of a walk put every parent nearest to its child, in terms of tree depth. */
  lemma WalkNearestParents(w: Walk)
    requires Inv(w)
    ensures NearestParents(w.edges)
  {
    forall k, m | 0 <= k < |w.edges| && w.edges[k].source < m <= k
      ensures Depth(w.edges, m) > Depth(w.edges, w.edges[k].source)
    {
      assert ParentNearest(w, k);
      LevelIsDepth(w, m);
      LevelIsDepth(w, w.edges[k].source);
    }
  }
}
