/** The decision logic of `handleSearch`: which nodes glow after a query, what the status
    line says, and which node the view scrolls to. Parsing the input and evaluating the
    JSONPath query are not modelled; their combined effect is given as a `QueryOutcome`. */
module Search {
  import opened Maybe
  import opened Text
  import opened Json
  import opened Graph
  import opened Reparse

  /** What evaluating the query produced: an exception (from `JSON.parse` or from
      `JSONPath`) with its message, or the list of matched values. */
  datatype QueryOutcome = Threw(message: string) | Results(values: seq<Json>)

  /** The new node list, the new `searchResult` text, and the id of the node the view
      scrolls to, if any. */
  datatype SearchOutcome = SearchOutcome(nodes: seq<Node>, message: string, focus: Option<nat>)

  /** `results.some(result => JSON.stringify(value) === JSON.stringify(result))`. */
  predicate Matches(v: Json, results: seq<Json>) {
    exists j :: 0 <= j < |results| && Stringify(results[j]) == Stringify(v)
  }

  /** Every node with its glow switched on or off. */
  function SetHighlights(nodes: seq<Node>, results: seq<Json>): (r: seq<Node>)
    ensures |r| == |nodes|
  {
    seq(|nodes|, i requires 0 <= i < |nodes| => nodes[i].(highlighted := Matches(nodes[i].value, results)))
  }

  function ClearHighlights(nodes: seq<Node>): (r: seq<Node>)
    ensures |r| == |nodes|
  {
    seq(|nodes|, i requires 0 <= i < |nodes| => nodes[i].(highlighted := false))
  }

  /** Node `i` is the first whose value matches. */
  predicate FirstMatching(nodes: seq<Node>, results: seq<Json>, i: nat) {
    && i < |nodes| && Matches(nodes[i].value, results)
    && forall j :: 0 <= j < i ==> !Matches(nodes[j].value, results)
  }

  /** Node `i` is the first that glows. */
  predicate FirstHighlighted(nodes: seq<Node>, i: nat) {
    && i < |nodes| && nodes[i].highlighted
    && forall j :: 0 <= j < i ==> !nodes[j].highlighted
  }

  /** `updatedNodes.find(...)`: the id of the first node whose value matches. */
  function FirstMatch(nodes: seq<Node>, results: seq<Json>): (r: Option<nat>)
    ensures r.Some? ==> exists i: nat :: FirstMatching(nodes, results, i) && nodes[i].id == r.value
    ensures r.None? ==> forall i :: 0 <= i < |nodes| ==> !Matches(nodes[i].value, results)
  {
    if |nodes| == 0 then None
    else if Matches(nodes[0].value, results) then Some(nodes[0].id)
    else
      var r := FirstMatch(nodes[1..], results);
      if r.Some? then
        var i: nat :| FirstMatching(nodes[1..], results, i) && nodes[1..][i].id == r.value;
        assert nodes[i + 1] == nodes[1..][i];
        assert forall j :: 1 <= j < i + 1 ==> nodes[j] == nodes[1..][j - 1];
        assert FirstMatching(nodes, results, i + 1);
        r
      else r
  }

  /** `Match found! (<n> result(s))`. */
  function FoundMessage(n: nat): string {
    "Match found! (" + Decimal(n) + " result(s))"
  }

  /** `handleSearch`: a blank query clears every glow and the status line; otherwise the
      query's outcome decides. An exception leaves the nodes alone and reports its
      message; no results clear every glow; results light exactly the nodes whose value
      serialises like some result, and the view scrolls to the first of them. */
  function HandleSearch(nodes: seq<Node>, query: string, outcome: QueryOutcome): (r: SearchOutcome)
    ensures |r.nodes| == |nodes|
  {
    if Trim(query) == "" then SearchOutcome(ClearHighlights(nodes), "", None)
    else match outcome
      case Threw(msg) => SearchOutcome(nodes, "Search error: " + msg, None)
      case Results(values) =>
        if |values| > 0 then
          var updated := SetHighlights(nodes, values);
          SearchOutcome(updated, FoundMessage(|values|), FirstMatch(updated, values))
        else SearchOutcome(ClearHighlights(nodes), "No match found", None)
  }

  // ---------------------------------------------------------------------------
  // Properties
  // ---------------------------------------------------------------------------

  /** A query of nothing but whitespace clears every glow and the status line, whatever
      the query would have produced. */
  lemma BlankQueryClears(nodes: seq<Node>, query: string, outcome: QueryOutcome)
    requires forall i :: 0 <= i < |query| ==> IsJsWhitespace(query[i])
    ensures var r := HandleSearch(nodes, query, outcome);
      && r.message == "" && r.focus == None
      && forall i :: 0 <= i < |r.nodes| ==> !r.nodes[i].highlighted
  {
    BlankIffAllWhitespace(query);
  }

  /** A query with some other character is evaluated. */
  lemma NonBlankQueryEvaluated(nodes: seq<Node>, query: string, outcome: QueryOutcome)
    requires exists i :: 0 <= i < |query| && !IsJsWhitespace(query[i])
    ensures HandleSearch(nodes, query, outcome).message != ""
  {
    BlankIffAllWhitespace(query);
  }

  /** A search rewrites nothing but the glow: count, order, ids, labels, paths, values and
      positions all stay. */
  lemma SearchOnlyHighlights(nodes: seq<Node>, query: string, outcome: QueryOutcome)
    ensures var r := HandleSearch(nodes, query, outcome);
      && |r.nodes| == |nodes|
      && forall i :: 0 <= i < |nodes| ==> r.nodes[i] == nodes[i].(highlighted := r.nodes[i].highlighted)
  {
  }

  /** A query that throws after an earlier search keeps the glow that search left, and
      reports the message without scrolling. */
  lemma ThrowKeepsHighlights(nodes: seq<Node>, q1: string, o: QueryOutcome, q2: string, msg: string)
    requires Trim(q2) != ""
    ensures var before := HandleSearch(nodes, q1, o).nodes;
      var r := HandleSearch(before, q2, Threw(msg));
      && r.nodes == before
      && r.message == "Search error: " + msg && r.focus == None
  {
  }

  /** With results, a node glows exactly when some result serialises like its value. */
  lemma HighlightIffMatch(nodes: seq<Node>, query: string, values: seq<Json>, i: nat)
    requires Trim(query) != "" && |values| > 0 && i < |nodes|
    ensures HandleSearch(nodes, query, Results(values)).nodes[i].highlighted
      <==> exists j :: 0 <= j < |values| && Stringify(values[j]) == Stringify(nodes[i].value)
  {
  }

  /** When every number involved is finite, comparing texts is comparing values: a node
      glows exactly when its value is one of the results. */
  lemma HighlightIffEqual(nodes: seq<Node>, query: string, values: seq<Json>, i: nat)
    requires Trim(query) != "" && |values| > 0 && i < |nodes|
    requires Finite(nodes[i].value) && forall j :: 0 <= j < |values| ==> Finite(values[j])
    ensures HandleSearch(nodes, query, Results(values)).nodes[i].highlighted <==> nodes[i].value in values
  {
    HighlightIffMatch(nodes, query, values, i);
    forall j | 0 <= j < |values|
      ensures Stringify(values[j]) == Stringify(nodes[i].value) <==> values[j] == nodes[i].value
    {
      StringifyInjective(values[j], nodes[i].value);
    }
  }

  /** A number too large for a double is read as `Infinity` and written as `null`, so
      a query yielding `null` lights it although its value is not among the results. */
  lemma OverflowGlowsForNull(nodes: seq<Node>, query: string, i: nat)
    requires Trim(query) != "" && i < |nodes| && nodes[i].value == JNum("null")
    ensures HandleSearch(nodes, query, Results([JNull])).nodes[i].highlighted
    ensures nodes[i].value !in [JNull]
  {
    HighlightIffMatch(nodes, query, [JNull], i);
    OverflowWrittenAsNull();
    assert Stringify([JNull][0]) == Stringify(nodes[i].value);
  }

  /** Nodes holding the same value glow alike after a blank query or one with results,
      wherever they are in the tree. (After a query that throws, they keep the glow they
      had: `ThrowKeepsHighlights`.) */
  lemma EqualValuesGlowAlike(nodes: seq<Node>, query: string, outcome: QueryOutcome, i: nat, j: nat)
    requires i < |nodes| && j < |nodes| && nodes[i].value == nodes[j].value
    requires Trim(query) == "" || outcome.Results?
    ensures var r := HandleSearch(nodes, query, outcome);
      r.nodes[i].highlighted == r.nodes[j].highlighted
  {
  }

  /** No results clear every glow and report that nothing matched. */
  lemma NoResultsClear(nodes: seq<Node>, query: string)
    requires Trim(query) != ""
    ensures var r := HandleSearch(nodes, query, Results([]));
      && r.message == "No match found" && r.focus == None
      && forall i :: 0 <= i < |r.nodes| ==> !r.nodes[i].highlighted
  {
  }

  /** The view scrolls to the first glowing node in list order, and to none when nothing
      glows; the message counts the results. */
  lemma FocusIsFirstHighlighted(nodes: seq<Node>, query: string, values: seq<Json>)
    requires Trim(query) != "" && |values| > 0
    ensures var r := HandleSearch(nodes, query, Results(values));
      && r.message == FoundMessage(|values|)
      && (r.focus.None? <==> forall i :: 0 <= i < |r.nodes| ==> !r.nodes[i].highlighted)
      && (r.focus.Some? ==> exists i: nat :: FirstHighlighted(r.nodes, i) && r.nodes[i].id == r.focus.value)
  {
    var r := HandleSearch(nodes, query, Results(values));
    assert forall i :: 0 <= i < |r.nodes| ==> (r.nodes[i].highlighted <==> Matches(r.nodes[i].value, values));
    assert forall i: nat :: FirstMatching(r.nodes, values, i) <==> FirstHighlighted(r.nodes, i);
  }

  /** Searching again with the same outcome changes nothing further: the glow depends on
      the values and the query alone. */
  lemma SearchIdempotent(nodes: seq<Node>, query: string, outcome: QueryOutcome)
    ensures var r := HandleSearch(nodes, query, outcome);
      HandleSearch(r.nodes, query, outcome) == r
  {
    var r := HandleSearch(nodes, query, outcome);
    var r2 := HandleSearch(r.nodes, query, outcome);
    assert r2.nodes == r.nodes;
  }
}
