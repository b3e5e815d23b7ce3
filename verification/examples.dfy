/** Small documents worked through the model: the path and label quirks of `traverse`, a
    laid-out pair of siblings, and a search that lights equal values in two places. */
module Examples {
  import opened Maybe
  import opened Text
  import opened Json
  import opened Graph
  import opened Traversal
  import opened Layout
  import opened Pipeline
  import opened Search

  const Address := JObj([("city", JStr("Paris"))])
  const User := JObj([("address", Address)])

  /** `{"user": {"address": {"city": "Paris"}}}`. */
  const Sample := JObj([("user", User)])

  /** The calls `traverse` makes on the sample, in order. */
  const SampleCalls := [Entry(KRoot, Sample, 0), Entry(KName("user"), User, 1),
    Entry(KName("address"), Address, 2), Entry(KName("city"), JStr("Paris"), 3)]

  /** Member names chain with dots; a string value is labelled with its quotes. */
  lemma SamplePaths()
    ensures var w := CreateWalk(Sample);
      && |w.nodes| == 4
      && w.nodes[0].path == "$" && w.nodes[0].labelText == "{}"
      && w.nodes[1].path == "$.user" && w.nodes[1].labelText == "{} user"
      && w.nodes[2].path == "$.user.address"
      && w.nodes[3].path == "$.user.address.city" && w.nodes[3].labelText == "city: \"Paris\""
      && w.edges == [Edge(0, 1), Edge(1, 2), Edge(2, 3)]
  {
    SampleListing();
    var w := CreateWalk(Sample);
    SampleEdges(w);
    SampleNodes(w);
  }

  lemma SampleListing()
    ensures PreOrder(Sample, KRoot, 0) == SampleCalls
  {
    assert PreOrder(JStr("Paris"), KName("city"), 3) == [Entry(KName("city"), JStr("Paris"), 3)];
    assert PreOrderFrom(Address, 0, 3) == PreOrder(JStr("Paris"), KName("city"), 3);
    assert PreOrderFrom(User, 0, 2) == PreOrder(Address, KName("address"), 2);
    assert PreOrderFrom(Sample, 0, 1) == PreOrder(User, KName("user"), 1);
    assert PreOrder(Address, KName("address"), 2) == SampleCalls[2..];
    assert PreOrder(User, KName("user"), 1) == SampleCalls[1..];
  }

  lemma SampleEdges(w: Walk)
    requires Inv(w) && w.calls == SampleCalls
    ensures w.edges == [Edge(0, 1), Edge(1, 2), Edge(2, 3)]
  {
    assert w.edges[1].source == 1 by {
      assert ParentNearest(w, 1);
    }
    assert w.edges[2].source == 2 by {
      assert ParentNearest(w, 2);
    }
  }

  lemma SampleNodes(w: Walk)
    requires Inv(w) && w.calls == SampleCalls && w.edges == [Edge(0, 1), Edge(1, 2), Edge(2, 3)]
    ensures w.nodes[0].path == "$" && w.nodes[0].labelText == "{}"
    ensures w.nodes[1].path == "$.user" && w.nodes[1].labelText == "{} user"
    ensures w.nodes[2].path == "$.user.address"
    ensures w.nodes[3].path == "$.user.address.city" && w.nodes[3].labelText == "city: \"Paris\""
  {
    assert NodeFits(w, 0) && NodeFits(w, 1);
    SampleLeaf(w);
  }

  lemma SampleLeaf(w: Walk)
    requires Inv(w) && w.calls == SampleCalls && w.edges == [Edge(0, 1), Edge(1, 2), Edge(2, 3)]
    requires w.nodes[1].path == "$.user"
    ensures w.nodes[2].path == "$.user.address"
    ensures w.nodes[3].path == "$.user.address.city" && w.nodes[3].labelText == "city: \"Paris\""
  {
    assert NodeFits(w, 2);
    SampleCity(w);
  }

  lemma SampleCity(w: Walk)
    requires Inv(w) && w.calls == SampleCalls && w.edges == [Edge(0, 1), Edge(1, 2), Edge(2, 3)]
    requires w.nodes[2].path == "$.user.address"
    ensures w.nodes[3].path == "$.user.address.city" && w.nodes[3].labelText == "city: \"Paris\""
  {
    assert NodeFits(w, 3);
    ParisQuoted();
  }

  lemma ParisQuoted()
    ensures Stringify(JStr("Paris")) == "\"Paris\""
  {
    EscapePlain("Paris");
  }

  /** A document that is a bare primitive is labelled and pathed by the default key. */
  lemma RootPrimitive()
    ensures var w := CreateWalk(JNum("5"));
      && |w.nodes| == 1 && w.edges == []
      && w.nodes[0].path == "$.root" && w.nodes[0].labelText == "root: 5"
  {
    var w := CreateWalk(JNum("5"));
    assert NodeFits(w, 0);
  }

  /** A nested container under a member literally named `root` starts again at `$` and
      shows no key, so two nodes share the path `$`. */
  lemma NestedRootKey()
    ensures var w := CreateWalk(JObj([("root", JObj([("x", JNull)]))]));
      && w.nodes[0].path == "$" && w.nodes[1].path == "$" && w.nodes[1].labelText == "{}"
      && w.nodes[2].path == "$.x" && w.nodes[2].labelText == "x: null"
  {
    var inner := JObj([("x", JNull)]);
    var doc := JObj([("root", inner)]);
    assert PreOrder(JNull, KName("x"), 2) == [Entry(KName("x"), JNull, 2)];
    assert PreOrderFrom(inner, 0, 2) == PreOrder(JNull, KName("x"), 2);
    assert PreOrderFrom(doc, 0, 1) == PreOrder(inner, KName("root"), 1);
    NestedRootKeyWalk(CreateWalk(doc), doc, inner);
  }

  lemma NestedRootKeyWalk(w: Walk, doc: Json, inner: Json)
    requires inner == JObj([("x", JNull)]) && doc == JObj([("root", inner)])
    requires Inv(w) && w.calls == [Entry(KRoot, doc, 0), Entry(KName("root"), inner, 1), Entry(KName("x"), JNull, 2)]
    ensures w.nodes[0].path == "$" && w.nodes[1].path == "$" && w.nodes[1].labelText == "{}"
    ensures w.nodes[2].path == "$.x" && w.nodes[2].labelText == "x: null"
  {
    assert NodeFits(w, 0);
    assert w.edges[1].source == 1 by {
      assert ParentNearest(w, 1);
    }
    assert NodeFits(w, 1);
    assert NodeFits(w, 2);
  }

  /** Array elements: a primitive gets `[i]`, a container gets `.i`. */
  lemma ArrayPaths()
    ensures var w := CreateWalk(JArr([JBool(true), JArr([])]));
      && w.nodes[1].path == "$[0]" && w.nodes[1].labelText == "0: true"
      && w.nodes[2].path == "$.1" && w.nodes[2].labelText == "[] 1"
  {
    var doc := JArr([JBool(true), JArr([])]);
    assert PreOrder(JArr([]), KIndex(1), 1) == [Entry(KIndex(1), JArr([]), 1)];
    assert PreOrderFrom(doc, 1, 1) == PreOrder(JArr([]), KIndex(1), 1);
    assert PreOrder(JBool(true), KIndex(0), 1) == [Entry(KIndex(0), JBool(true), 1)];
    ArrayPathsWalk(CreateWalk(doc), doc);
  }

  lemma ArrayPathsWalk(w: Walk, doc: Json)
    requires doc == JArr([JBool(true), JArr([])])
    requires Inv(w) && w.calls == [Entry(KRoot, doc, 0), Entry(KIndex(0), JBool(true), 1), Entry(KIndex(1), JArr([]), 1)]
    ensures w.nodes[1].path == "$[0]" && w.nodes[1].labelText == "0: true"
    ensures w.nodes[2].path == "$.1" && w.nodes[2].labelText == "[] 1"
  {
    assert ParentNearest(w, 0) && ParentNearest(w, 1);
    assert NodeFits(w, 0) && NodeFits(w, 1) && NodeFits(w, 2);
    assert Decimal(0) == "0" && Decimal(1) == "1";
  }

  /** `{"a": 1, "b": 1}`: the same value under two keys. */
  const Pair := JObj([("a", JNum("1")), ("b", JNum("1"))])

  const PairCalls := [Entry(KRoot, Pair, 0), Entry(KName("a"), JNum("1"), 1), Entry(KName("b"), JNum("1"), 1)]

  lemma PairListing()
    ensures PreOrder(Pair, KRoot, 0) == PairCalls
  {
    assert PreOrderFrom(Pair, 1, 1) == [Entry(KName("b"), JNum("1"), 1)];
    assert PreOrder(JNum("1"), KName("a"), 1) == [Entry(KName("a"), JNum("1"), 1)];
  }

  lemma PairCounts()
    ensures CountAt(PairCalls[..0], 0) == 0 && CountAt(PairCalls, 0) == 1
    ensures CountAt(PairCalls[..1], 1) == 0 && CountAt(PairCalls[..2], 1) == 1 && CountAt(PairCalls, 1) == 2
  {
    var es := PairCalls;
    assert es[..1] == [es[0]] && es[..2] == [es[0], es[1]];
    assert es[..0] == [] && es[..3] == es;
    assert CountAt(es[..1], 0) == 1 && CountAt(es[..2], 0) == 1;
  }

  /** `{"a": 1, "b": 1}` laid out: the root alone on row 0, its two members side by side
      on row 1, centred about `x = 0`. */
  method SiblingsLaidOut() returns (nodes: seq<Node>, edges: seq<Edge>)
    ensures |nodes| == 3 && edges == [Edge(0, 1), Edge(0, 2)]
    ensures nodes[0].position == Pos(0, 0)
    ensures nodes[1].position == Pos(-150, 120) && nodes[2].position == Pos(150, 120)
  {
    nodes, edges := CreateNodesAndEdges(Pair);
    PairListing();
    PairCounts();
    assert PairCalls[..3] == PairCalls;
  }

  /** Searching `{"a": 1, "b": 1}` with any query that yields the single value `1` lights
      both members, not the root, and scrolls to the first member. */
  lemma EqualValuesBothLit(query: string)
    requires Trim(query) != ""
    ensures var r := HandleSearch(CreateWalk(Pair).nodes, query, Results([JNum("1")]));
      && r.message == FoundMessage(1)
      && !r.nodes[0].highlighted && r.nodes[1].highlighted && r.nodes[2].highlighted
      && r.focus == Some(1)
  {
    PairListing();
    EqualValuesWalk(CreateWalk(Pair), query);
  }

  lemma EqualValuesWalk(w: Walk, query: string)
    requires Trim(query) != "" && Inv(w) && w.calls == PairCalls
    ensures var r := HandleSearch(w.nodes, query, Results([JNum("1")]));
      && r.message == FoundMessage(1)
      && !r.nodes[0].highlighted && r.nodes[1].highlighted && r.nodes[2].highlighted
      && r.focus == Some(1)
  {
    var one := [JNum("1")];
    assert w.nodes[0].value == Pair && w.nodes[1].value == JNum("1") && w.nodes[2].value == JNum("1") by {
      assert NodeFits(w, 0) && NodeFits(w, 1) && NodeFits(w, 2);
    }
    assert w.nodes[1].id == 1;
    assert !Matches(Pair, one) by {
      assert Stringify(Pair)[0] == '{';
    }
    assert Stringify(one[0]) == Stringify(JNum("1"));
    HighlightIffMatch(w.nodes, query, one, 0);
    HighlightIffMatch(w.nodes, query, one, 1);
    HighlightIffMatch(w.nodes, query, one, 2);
    FocusIsFirstHighlighted(w.nodes, query, one);
  }
}
