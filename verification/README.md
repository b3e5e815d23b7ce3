# JSON tree visualizer core, modelled in Dafny

The model covers the core of the visualizer's `src/app.js`: the part that turns a parsed
JSON document into a graph, lays the graph out, and marks nodes that match a search.

- **Node classification** (`getNodeType`). `Json.NodeType` says which nodes are objects,
  arrays or primitives.
- **Traversal** (the inner `traverse` of `createNodesAndEdges`). It creates one node per
  JSON value in pre-order. Each node gets an id `node-<n>`, a label, a JSONPath-style path
  and the value itself, and each non-root node gets one edge from its parent. The closure's
  shared state is the `nodes` array, the `edges` array and the `nodeId` counter. The model
  threads it through as a `Traversal.Walk` record, and a reference pre-order listing
  (`Json.PreOrder`) states what the walk must produce.
- **Levels** (`calculateLevels`). A breadth-first walk from the first node groups node ids
  by level. `Levels.Step` models one pass of the `while` loop, `Levels.Drain` runs the loop
  from its starting state, and `Levels.CalculateLevels` starts it at the first node.
- **Layout** (`layoutNodes`). Level `L` goes in row `y = 120 * L`. Its nodes sit 300 apart
  and are centred on `x = 0`.
- **Generate** (`generateTree`). Input that does not parse sets an error message. Input
  that parses, and is shallow enough for `traverse`'s recursion, replaces the graph (see
  "Left out" for documents nested too deeply).
- **Search** (`handleSearch`). A blank query clears every highlight. A query that throws
  leaves the nodes alone. With results, a node is highlighted exactly when its value
  serialises (`JSON.stringify`) like some result, and the view scrolls to the first such
  node.
- **Serialised text reads back** (`JSON.stringify`, as the search uses it). `Reparse`
  holds a reader for the text `Json.Stringify` writes, and proves that reading a value's
  text gives the value back. So when every number involved is finite, two values
  serialise alike exactly when they are equal, and the search's text comparison is value
  equality. A number too large for a double is the exception: `JSON.parse` reads it as
  `Infinity`, which `JSON.stringify` writes as `null`, so a query yielding `null` lights it
  too (`Search.OverflowGlowsForNull`).

The source's quirks are modelled as written:

- Every container child's path uses `.key`, even when the key is an array index (`$.1`).
  A primitive array element uses `[i]`.
- A primitive document root gets the path `$.root` and the label `root: <value>`.
- A container under an object member literally named `"root"` gets the path `$` and no key
  in its label, so two nodes can share the path `$` (`Examples.NestedRootKey`).

Modules, one file each:

- `maybe.dfy`: `Option`.
- `text.dfy`: decimal rendering and `String.prototype.trim`.
- `json.dfy`: values, keys, node kinds, sizes, the reference pre-order listing, and
  `JSON.stringify`.
- `graph.dfy`: nodes, edges, `nodes.find` by id, and tree depth.
- `traversal.dfy`: `traverse`.
- `levels.dfy`: `calculateLevels`.
- `layout.dfy`: `layoutNodes`.
- `pipeline.dfy`: `createNodesAndEdges` and `generateTree`.
- `reparse.dfy`: reading back the text `JSON.stringify` writes.
- `search.dfy`: `handleSearch`.
- `examples.dfy`: small documents worked through.

Further facts about the code that the model keeps:

- The root's path is `$` only for a container root. A primitive root gets `$.root`, and a
  nested container keyed `"root"` also gets `$`.
- Only primitive array elements get `[i]` in their path; container elements get `.i`.
- Paths are not unique per node: see the nested `"root"` case above.
- Nodes carry no level field. `traverse` keeps the level only as an argument; the model
  records it beside the walk, in `Walk.calls`.

## Model

| member | source | states |
|---|---|---|
| Json.NodeType | src/app.js:44-49 | `null` and every scalar are primitives, arrays are arrays, and any other object is an object, each in both directions |
| Text.DecimalRoundTrip | src/app.js:66 | reading the decimal rendering of a node counter back gives the counter |
| Graph.NodeIdTextInjective | src/app.js:66 | two ids `node-<a>` and `node-<b>` are equal strings exactly when `a == b`, so the source's string comparisons of ids are number comparisons |
| Graph.FindIndex | src/app.js:166 | `nodes.find` by id returns the first node with that id, or nothing when no node has it |
| Traversal.Visit | src/app.js:65-119 | one call appends exactly one node, numbered by the counter, and records its own arguments; an edge from the parent to the new node is appended exactly when there is a parent |
| Traversal.Traverse | src/app.js:65-127 | no contract of its own; `Traversal.TraverseSizes`, `TraverseCalls`, `TraverseExtends`, `TraverseFirst` and `TraverseKeepsInv` state what one call adds |
| Traversal.TraverseChildren | src/app.js:119-127 | no contract of its own; the lemmas `TraverseChildrenSizes`, `TraverseChildrenCalls`, `TraverseChildrenExtends` and `TraverseChildrenKeepsInv`, proved together with the `Traverse` ones, state what the `forEach` over the children adds |
| Traversal.Label | src/app.js:73-81 | no contract of its own; `Traversal.TraverseKeepsInv` states that every node carries the label of its call, and `Traversal.RootNode` and the examples give concrete labels |
| Traversal.NodePath | src/app.js:71-83 | no contract of its own; `Traversal.NodePathExtends` and `Traversal.PathRooted` state its properties |
| Traversal.LookupPath | src/app.js:71 | no contract of its own; `Graph.FindIndex` states the lookup, and `Traversal.TraverseKeepsInv` states that the path found is the parent's |
| Traversal.CreateWalk | src/app.js:60-130 | traversing a document yields one node per value, one edge fewer than nodes, and the traversal invariant; the calls, in node order, are exactly the reference pre-order listing |
| Traversal.TraverseSizes | src/app.js:65-129 | one call adds `Size(v)` nodes and takes as many ids; it adds as many edges, or one fewer at the root |
| Traversal.TraverseCalls | src/app.js:119-129 | the calls one `traverse` makes are the pre-order listing of its value: the value itself, then each member or element in order, one level deeper |
| Traversal.TraverseExtends | src/app.js:85-113 | a call only appends: nodes, edges and calls already pushed stay unchanged |
| Traversal.TraverseFirst | src/app.js:65-113 | the first node a call creates carries the counter it found, and when it has a parent the first edge it pushes leads from that parent to that node |
| Traversal.TraverseKeepsInv | src/app.js:65-129 | each node holds its call's value, kind, label, path (from its parent's path), origin position and no highlight; each edge comes from the nearest earlier node one level up |
| Traversal.LevelIsDepth | src/app.js:119-126 | the level a node is created at equals its depth in the tree of edges |
| Traversal.PathRooted | src/app.js:71-82 | every path starts with `$`; a path is `$` alone exactly for a container whose key is `'root'` |
| Traversal.NodePathExtends | src/app.js:71-82 | a node's path is `$` (container keyed `'root'`) or strictly extends its parent's path |
| Traversal.RootNode | src/app.js:65-130 | the first node is the whole document, numbered 0; a container gets `{}`/`[]` and `$`, and a primitive gets `root: <value>` and `$.root` |
| Traversal.WalkNearestParents | src/app.js:109-125 | every node strictly between a parent and its child lies deeper than the parent, so each subtree occupies a contiguous run of ids |
| Json.PreOrderDeeper | src/app.js:119-126 | every entry of a subtree's listing lies at the subtree's level or deeper |
| Levels.TargetsFrom | src/app.js:151-153 | the ids queued for a node are exactly the targets of the edges leaving it |
| Levels.StepGenInv | src/app.js:143-154 | one pass keeps the loop invariant for any edge list: the head's level names a filled level or the next one; the queue holds only the last filled level and the next, in that order; the levels record exactly the visited ids, none twice and none empty; every visited or queued id is the start or an edge target; and every edge out of a visited id leads to a visited or queued id |
| Levels.StepDecreases | src/app.js:143-154 | each pass records a new id or shortens the queue, so the loop ends |
| Levels.StepTreeInv | src/app.js:143-154 | on a traversal's tree one pass keeps: queued ids wait at their depth, in increasing id order within a level; recorded ids sit in the level of their depth, in increasing order; ids waiting at the last level come after everything recorded there; and ids waiting one level below are children of ids recorded at the last level |
| Levels.Drain | src/app.js:143-154 | the `while` loop, run from the start until the queue is empty, leaves the start alone at level 0, no id twice, no empty level, only the start and edge targets recorded, and the recorded ids closed under edges; on a traversal's tree, the nodes grouped by depth |
| Levels.ChildOneLevelDown | src/app.js:143-154 | on a traversal tree whose levels are recorded by depth, the target of every edge is recorded exactly one level below its source |
| Levels.Step | src/app.js:143-154 | no contract of its own beyond its requirement that the head's level is at most the number of levels filled; `Levels.StepGenInv`, `Levels.StepTreeInv` and `Levels.StepDecreases` state what one pass keeps and that the loop ends |
| Levels.CalculateLevels | src/app.js:139-155 | for any edge list: level 0 is the first node alone, no id appears twice, no level is empty, only the first node and edge targets are recorded, and the recorded ids are closed under edges; for a traversal's tree, node `i` is in level `L` exactly when its depth is `L`, every node is recorded and nothing else, and each level lists its ids in increasing order |
| Levels.LevelsPartition | src/app.js:139-155 | levels grouped by depth record every node exactly once, in the level of its depth, and nothing else |
| Levels.ByDepthIsAtDepth | src/app.js:139-155 | levels that hold the nodes of each depth, each level in increasing id order, are exactly the per-depth lists the layout counts with |
| Layout.StartX | src/app.js:163 | the first node of a level of `count` nodes sits at `x = (1 - count) * 150` |
| Layout.Slot | src/app.js:163-171 | no contract of its own; `Layout.SlotsCentred` and `Layout.DistinctSlots` state its properties |
| Layout.SlotsCentred | src/app.js:163-171 | the `i`-th node from the left and the `i`-th from the right of a level mirror each other about `x = 0` |
| Layout.DistinctSlots | src/app.js:160-173 | when no id is recorded twice, two slots holding the same id are the same slot |
| Layout.PositionNodes | src/app.js:160-174 | only positions change, only for recorded ids; when ids are list positions and no id is recorded twice, each recorded node ends at its level's row and its index's column |
| Layout.PositionLevel | src/app.js:165-173 | placing one level's nodes keeps every earlier slot and fills all of that level's slots |
| Layout.LayoutNodes | src/app.js:133-177 | only positions change; on a traversal's tree, node `j` at depth `D` lands in row `D`, at the column given by how many depth-`D` nodes precede it, centred among all depth-`D` nodes |
| Pipeline.CreateNodesAndEdges | src/app.js:60-183 | node `i` is the `i`-th value of the document's pre-order listing, with its kind, label, and a path that extends its parent's; edge `k` leads into node `k + 1` from the nearest earlier node one level up; every node sits in the row of its level, ordered among that level's nodes by listing order |
| Pipeline.GenerateTree | src/app.js:199-210 | input that does not parse sets `Invalid JSON: <message>` and changes nothing else; parsed input clears both messages and installs the graph `createNodesAndEdges` builds |
| Text.BlankIffAllWhitespace | src/app.js:213 | `trim()` yields the empty string exactly when every character is JavaScript whitespace |
| Text.Trim | src/app.js:213 | the trimmed text is no longer than the input; `Text.TrimIsSlice`, `Text.TrimRemovesWhitespace` and `Text.BlankIffAllWhitespace` state what it removes and when it is empty |
| Search.HandleSearch | src/app.js:212-288 | keeps the number of nodes; the `Search` lemmas below state the rest |
| Search.Matches | src/app.js:234-236 | no contract of its own; `Search.HighlightIffEqual` and `Search.OverflowGlowsForNull` state what the comparison means |
| Search.FirstMatch | src/app.js:262-264 | the node found is the first whose value matches some result, or none matches |
| Search.BlankQueryClears | src/app.js:213-223 | a query of only whitespace clears every highlight and the message, whatever the query would return |
| Search.NonBlankQueryEvaluated | src/app.js:213-231 | a query with any non-whitespace character is evaluated and always reports a message |
| Search.SearchOnlyHighlights | src/app.js:212-288 | every search keeps the node count, order, ids, labels, paths, values and positions; only highlights change |
| Search.ThrowKeepsHighlights | src/app.js:285-287 | a query that throws after any earlier search keeps the highlights that search left, reports `Search error: <message>` and scrolls nowhere |
| Search.HighlightIffEqual | src/app.js:233-236 | with results whose numbers are all finite, a node with finite numbers is highlighted exactly when its value is one of the results |
| Search.OverflowGlowsForNull | src/app.js:233-236 | a number written as `null` (one beyond double range) is highlighted by a `null` result although the values differ |
| Json.Stringify | src/app.js:235 | no contract of its own; `Reparse.ReadValueRoundTrip` and `Reparse.StringifyInjective` state that its text determines finite values |
| Json.EscapeChar | src/app.js:235 | every escape is non-empty; `Reparse.ReadCharRoundTrip` states that it reads back |
| Reparse.ReadCharRoundTrip | src/app.js:235 | every character's escape in `JSON.stringify` output reads back as that character, leaving the text after it |
| Reparse.ReadStringRoundTrip | src/app.js:235 | a string's escaped body and closing quote read back as the string, leaving the text after the quote |
| Reparse.ReadValueRoundTrip | src/app.js:235 | the serialised text of a value whose numbers are finite, followed by nothing, a comma or a closing bracket, reads back as that value and leaves the rest |
| Reparse.ElementsRoundTrip | src/app.js:235 | the serialised elements of an array from any position on, with the closing `]`, read back as those elements |
| Reparse.MembersRoundTrip | src/app.js:235 | the serialised members of an object from any position on, with the closing `}`, read back as those names and values in order |
| Reparse.StringifyInjective | src/app.js:235 | two values whose numbers are finite serialise to the same text exactly when they are equal |
| Search.EqualValuesGlowAlike | src/app.js:213-257 | after a blank query or one with results, two nodes holding the same value end with the same highlight, whatever their highlights before; after a throw they keep their earlier highlights (`Search.ThrowKeepsHighlights`) |
| Search.NoResultsClear | src/app.js:274-284 | no results clear every highlight and report `No match found` |
| Search.FocusIsFirstHighlighted | src/app.js:230-273 | with results, the message counts them and the view scrolls to the first highlighted node in list order, or to none when nothing is highlighted |
| Search.SearchIdempotent | src/app.js:212-288 | searching again with the same query and outcome changes nothing |
| Examples.SamplePaths | src/app.js:71-82 | `{"user":{"address":{"city":"Paris"}}}` gives paths `$`, `$.user`, `$.user.address`, `$.user.address.city` along a chain of edges |
| Examples.NestedRootKey | src/app.js:71-82 | a container under a member named `root` gets path `$` and label `{}`, the same path as the document root; its own members restart from `$` (`$.x`) |
| Examples.ArrayPaths | src/app.js:77-82 | a primitive array element gets `$[0]`; a container element gets `$.1` |
| Examples.SiblingsLaidOut | src/app.js:160-171 | `{"a":1,"b":1}` puts the root at `(0, 0)` and its members at `(-150, 120)` and `(150, 120)` |
| Examples.EqualValuesBothLit | src/app.js:233-264 | searching `{"a":1,"b":1}` for the value `1` highlights both members and scrolls to the first |

## Left out

- Rendering, styles, colours, `isDarkMode`, the minimap, image export, the clipboard,
  scrolling and the `setTimeout` before it, and `handleClear` are presentation and are not
  modelled. A highlight is the boolean `Node.highlighted`, not the style record. Clearing
  a highlight keeps `zIndex: 1000` in the source; that style detail is not modelled.
- Pipeline.GenerateTree: does not model a document nested too deeply for the native
  recursion of `traverse` (through `forEach` and its callback). In the source the stack
  overflows inside the `try`, so the `catch` sets `Invalid JSON: <the engine's message>`
  and keeps the old graph and search line, as for input that does not parse. The model
  has no stack, so its `Parsed` branch always installs the graph.
- `JSON.parse` and JSONPath evaluation are not modelled. `generateTree` receives their
  effect as a `ParseOutcome`. `handleSearch` receives it as a `QueryOutcome`: the parsed
  results, or the exception either step threw.
- The reader in `Reparse` accepts the text `JSON.stringify` writes and little else: no
  white space, and `\u` escapes only of the form `\u00xx`. It is the inverse used to
  state what the text comparison means, not a model of `JSON.parse`.
- Numbers are kept as the text `JSON.stringify` prints for them. No arithmetic is done on
  them, and floating point is not modelled.
- Object members keep the order the value lists them in. An ordinary JavaScript object
  lists integer-like keys first, in ascending order, and both `Object.entries` and
  `JSON.stringify` follow that order; the model does not reorder keys.
- `JSON.parse` can produce a string holding a lone surrogate (from the text `"\ud800"`),
  which `JSON.stringify` writes back as `\ud800`. Strings here are sequences of Dafny
  `char`, which cannot hold a lone surrogate, so the model cannot express such strings.
- Levels.CalculateLevels: requires a non-empty node list. The source reads `nodes[0].id`
  and would throw on an empty list, but `createNodesAndEdges` never produces one.
- Layout.LayoutNodes: requires a non-empty node list, for the same reason.
- Levels.Step: requires the head's level to be at most the number of levels filled. The
  source's `nodeLevels` is an object keyed by level, modelled as a list indexed by level.
  The loop invariant shows that the requirement always holds.
- Layout.PositionNodes: the source walks `Object.keys(nodeLevels)`, which lists
  integer-like keys in ascending order. The model walks the list of levels in index order,
  which is the same order.
