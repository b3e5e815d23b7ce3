/** `calculateLevels` inside `layoutNodes`: a breadth-first walk from the first node that
    groups node ids by level. One pass of its `while` loop is `Step`; the loop's invariants
    are stated once as predicates and carried from step to step by lemmas. */
module Levels {
  import opened Graph

  /** `nodeLevels`: the ids recorded at each level, level `L` at index `L`. */
  type NodeLevels = seq<seq<nat>>

  /** A queue record `{ id, level }`. */
  datatype Pending = Pending(id: nat, level: nat)

  /** The loop's state: the queue, the `visited` set and `nodeLevels`. The source keeps
      `nodeLevels` in an object keyed by level; here it is a list indexed by level, since
      the levels filled are always exactly 0, 1, 2, ... (`QueueFits` below). */
  datatype Bfs = Bfs(queue: seq<Pending>, visited: set<nat>, levels: NodeLevels)

  // ---------------------------------------------------------------------------
  // One pass of the loop
  // ---------------------------------------------------------------------------

  /** `edges.filter(e => e.source === id).map(e => e.target)` over the edges from the
      `k`-th on, in edge order. */
  function TargetsFrom(edges: seq<Edge>, id: nat, k: nat): (ts: seq<nat>)
    decreases |edges| - k
    ensures forall t :: t in ts <==> exists m :: k <= m < |edges| && edges[m].source == id && edges[m].target == t
  {
    if k >= |edges| then []
    else (if edges[k].source == id then [edges[k].target] else []) + TargetsFrom(edges, id, k + 1)
  }

  function Targets(edges: seq<Edge>, id: nat): seq<nat> {
    TargetsFrom(edges, id, 0)
  }

  /** The records `{ id: e.target, level }` pushed for the targets `ts`. */
  function Enqueue(ts: seq<nat>, level: nat): (q: seq<Pending>)
    ensures |q| == |ts|
    ensures forall i :: 0 <= i < |q| ==> q[i] == Pending(ts[i], level)
  {
    seq(|ts|, i requires 0 <= i < |ts| => Pending(ts[i], level))
  }

  /** `if (!nodeLevels[level]) nodeLevels[level] = []; nodeLevels[level].push(id)`. */
  function Place(levels: NodeLevels, id: nat, level: nat): NodeLevels
    requires level <= |levels|
  {
    if level < |levels| then levels[level := levels[level] + [id]] else levels + [[id]]
  }

  /** One pass: take the head of the queue; unless it was visited, record it at its level
      and queue its targets one level deeper. */
  function Step(edges: seq<Edge>, s: Bfs): Bfs
    requires |s.queue| > 0 && s.queue[0].level <= |s.levels|
  {
    var head := s.queue[0];
    if head.id in s.visited then Bfs(s.queue[1..], s.visited, s.levels)
    else Bfs(s.queue[1..] + Enqueue(Targets(edges, head.id), head.level + 1),
             s.visited + {head.id},
             Place(s.levels, head.id, head.level))
  }

  function Init(root: nat): Bfs {
    Bfs([Pending(root, 0)], {}, [])
  }

  // ---------------------------------------------------------------------------
  // The loop invariant, for any edge list
  // ---------------------------------------------------------------------------

  /** The ids that can ever be queued: the start and every edge target. */
  function Universe(edges: seq<Edge>, root: nat): set<nat> {
    {root} + set k | 0 <= k < |edges| :: edges[k].target
  }

  /** Every id recorded in `levels`. */
  function Placed(levels: NodeLevels): set<nat> {
    set L, x | 0 <= L < |levels| && x in levels[L] :: x
  }

  predicate NoDup(s: seq<nat>) {
    forall a, b :: 0 <= a < b < |s| ==> s[a] != s[b]
  }

  predicate Disjoint(s: seq<nat>, t: seq<nat>) {
    forall x :: x in s ==> x !in t
  }

  /** No id is recorded twice, in one level or across two. */
  predicate Distinct(levels: NodeLevels) {
    && (forall L :: 0 <= L < |levels| ==> NoDup(levels[L]))
    && (forall L1, L2 :: 0 <= L1 < L2 < |levels| ==> Disjoint(levels[L1], levels[L2]))
  }

  predicate Queued(q: seq<Pending>, id: nat) {
    exists i :: 0 <= i < |q| && q[i].id == id
  }

  /** The queue holds levels `|levels| - 1` and `|levels|` only, in that order, so the
      head's level always names an existing level or the next one; the start is the only
      record at level 0. */
  predicate QueueFits(root: nat, s: Bfs) {
    && (forall i :: 0 <= i < |s.queue| ==> |s.levels| - 1 <= s.queue[i].level <= |s.levels|)
    && (forall a, b :: 0 <= a < b < |s.queue| ==> s.queue[a].level <= s.queue[b].level)
    && (|s.levels| == 0 ==> s.queue == [Pending(root, 0)] && s.visited == {})
    && (|s.levels| > 0 ==> s.levels[0] == [root] && forall i :: 0 <= i < |s.queue| ==> s.queue[i].level >= 1)
  }

  /** `nodeLevels` records exactly the visited ids, each once, and no level is empty. */
  predicate LevelsFit(s: Bfs) {
    && Placed(s.levels) == s.visited
    && Distinct(s.levels)
    && forall L :: 0 <= L < |s.levels| ==> |s.levels[L]| > 0
  }

  predicate InUniverse(edges: seq<Edge>, root: nat, s: Bfs) {
    && s.visited <= Universe(edges, root)
    && forall i :: 0 <= i < |s.queue| ==> s.queue[i].id in Universe(edges, root)
  }

  /** The target of an edge out of a visited id is visited or waiting in the queue. */
  predicate Closed(edges: seq<Edge>, s: Bfs) {
    forall k :: 0 <= k < |edges| && edges[k].source in s.visited ==>
      edges[k].target in s.visited || Queued(s.queue, edges[k].target)
  }

  predicate GenInv(edges: seq<Edge>, root: nat, s: Bfs) {
    QueueFits(root, s) && LevelsFit(s) && InUniverse(edges, root, s) && Closed(edges, s)
  }

  lemma InitGenInv(edges: seq<Edge>, root: nat)
    ensures GenInv(edges, root, Init(root))
  {
    assert Placed([]) == {};
  }

  /** Recording a new id extends the placed set by that id and keeps the levels distinct
      and non-empty. */
  lemma PlaceFits(levels: NodeLevels, id: nat, level: nat)
    requires level <= |levels| && id !in Placed(levels) && Distinct(levels)
    requires forall L :: 0 <= L < |levels| ==> |levels[L]| > 0
    ensures var p := Place(levels, id, level);
      && Placed(p) == Placed(levels) + {id}
      && Distinct(p)
      && forall L :: 0 <= L < |p| ==> |p[L]| > 0
  {
    var p := Place(levels, id, level);
    assert forall L :: 0 <= L < |levels| ==> id !in levels[L];
    if level < |levels| {
      assert NoDup(p[level]) by {
        assert p[level] == levels[level] + [id];
      }
    }
    forall x | x in Placed(p)
      ensures x in Placed(levels) + {id}
    {
      var L :| 0 <= L < |p| && x in p[L];
      if x != id {
        assert L < |levels| && x in levels[L];
      }
    }
    forall x | x in Placed(levels)
      ensures x in Placed(p)
    {
      var L :| 0 <= L < |levels| && x in levels[L];
      assert x in p[L];
    }
    assert id in p[level];
  }

  lemma StepQueueFits(edges: seq<Edge>, root: nat, s: Bfs)
    requires QueueFits(root, s) && |s.queue| > 0
    ensures s.queue[0].level <= |s.levels|
    ensures QueueFits(root, Step(edges, s))
  {
    var head := s.queue[0];
    var t := Step(edges, s);
    if head.id !in s.visited {
      var rest := s.queue[1..];
      var pushed := Enqueue(Targets(edges, head.id), head.level + 1);
      assert t.queue == rest + pushed;
      forall i | 0 <= i < |t.queue|
        ensures |t.levels| - 1 <= t.queue[i].level <= |t.levels|
      {
        if i < |rest| {
          assert t.queue[i] == s.queue[i + 1];
        }
      }
      forall a, b | 0 <= a < b < |t.queue|
        ensures t.queue[a].level <= t.queue[b].level
      {
        if b < |rest| {
          assert t.queue[a] == s.queue[a + 1] && t.queue[b] == s.queue[b + 1];
        } else if a < |rest| {
          assert t.queue[a] == s.queue[a + 1];
        }
      }
      if |s.levels| == 0 {
        assert t.levels == [[root]];
      }
    }
  }

  lemma StepLevelsFit(edges: seq<Edge>, root: nat, s: Bfs)
    requires QueueFits(root, s) && LevelsFit(s) && |s.queue| > 0
    ensures s.queue[0].level <= |s.levels|
    ensures LevelsFit(Step(edges, s))
  {
    var head := s.queue[0];
    if head.id !in s.visited {
      PlaceFits(s.levels, head.id, head.level);
    }
  }

  lemma StepInUniverse(edges: seq<Edge>, root: nat, s: Bfs)
    requires QueueFits(root, s) && InUniverse(edges, root, s) && |s.queue| > 0
    ensures s.queue[0].level <= |s.levels|
    ensures InUniverse(edges, root, Step(edges, s))
  {
    var head := s.queue[0];
    var t := Step(edges, s);
    if head.id !in s.visited {
      var rest := s.queue[1..];
      var ts := Targets(edges, head.id);
      forall i | 0 <= i < |t.queue|
        ensures t.queue[i].id in Universe(edges, root)
      {
        if i < |rest| {
          assert t.queue[i] == s.queue[i + 1];
        } else {
          assert ts[i - |rest|] in ts;
          var m :| 0 <= m < |edges| && edges[m].source == head.id && edges[m].target == ts[i - |rest|];
          assert t.queue[i].id == edges[m].target;
        }
      }
    }
  }

  lemma StepClosed(edges: seq<Edge>, root: nat, s: Bfs)
    requires QueueFits(root, s) && Closed(edges, s) && |s.queue| > 0
    ensures s.queue[0].level <= |s.levels|
    ensures Closed(edges, Step(edges, s))
  {
    var head := s.queue[0];
    var t := Step(edges, s);
    var rest := s.queue[1..];
    var pushed := if head.id in s.visited then [] else Enqueue(Targets(edges, head.id), head.level + 1);
    assert t.queue == rest + pushed;
    forall k | 0 <= k < |edges| && edges[k].source in t.visited
      ensures edges[k].target in t.visited || Queued(t.queue, edges[k].target)
    {
      var x := edges[k].target;
      if edges[k].source == head.id && head.id !in s.visited {
        assert x in Targets(edges, head.id);
        var i :| 0 <= i < |Targets(edges, head.id)| && Targets(edges, head.id)[i] == x;
        assert t.queue[|rest| + i].id == x;
      } else if x !in s.visited {
        var i :| 0 <= i < |s.queue| && s.queue[i].id == x;
        if i > 0 {
          assert t.queue[i - 1].id == x;
        }
      }
    }
  }

  /** The number of unvisited ids that can still be queued falls, or else the queue
      shrinks: the loop ends. */
  lemma StepDecreases(edges: seq<Edge>, root: nat, s: Bfs)
    requires QueueFits(root, s) && InUniverse(edges, root, s) && |s.queue| > 0
    ensures s.queue[0].level <= |s.levels|
    ensures var t := Step(edges, s); var u := Universe(edges, root);
      || |u - t.visited| < |u - s.visited|
      || (|u - t.visited| == |u - s.visited| && |t.queue| < |s.queue|)
  {
    var head := s.queue[0];
    var u := Universe(edges, root);
    if head.id !in s.visited {
      assert u - (s.visited + {head.id}) == (u - s.visited) - {head.id};
    }
  }

  lemma StepGenInv(edges: seq<Edge>, root: nat, s: Bfs)
    requires GenInv(edges, root, s) && |s.queue| > 0
    ensures s.queue[0].level <= |s.levels|
    ensures GenInv(edges, root, Step(edges, s))
  {
    StepQueueFits(edges, root, s);
    StepLevelsFit(edges, root, s);
    StepInUniverse(edges, root, s);
    StepClosed(edges, root, s);
  }

  // ---------------------------------------------------------------------------
  // The loop invariant for the tree the traversal builds
  // ---------------------------------------------------------------------------

  /** The edge list of a traversal, with `depth` giving each node's depth: edge `k` leads
      into node `k + 1` from an earlier node one level up, and every node strictly between
      a parent and its child lies deeper than the parent, so each subtree is a contiguous
      run of ids. */
  predicate TreeEdges(edges: seq<Edge>, depth: seq<nat>) {
    && |depth| == |edges| + 1 && depth[0] == 0
    && (forall k :: 0 <= k < |edges| ==>
          edges[k].target == k + 1 && edges[k].source <= k && depth[k + 1] == depth[edges[k].source] + 1)
    && (forall k, m :: 0 <= k < |edges| && edges[k].source < m <= k ==> depth[m] > depth[edges[k].source])
  }

  predicate Increasing(s: seq<nat>) {
    forall a, b :: 0 <= a < b < |s| ==> s[a] < s[b]
  }

  /** When edge `m` leads into node `m + 1`, the targets of one node come in increasing
      order, after the edges skipped, and each is reached by an edge from that node. */
  lemma {:induction false} TargetsFromNext(edges: seq<Edge>, id: nat, k: nat)
    requires forall m :: 0 <= m < |edges| ==> edges[m].target == m + 1
    decreases |edges| - k
    ensures var ts := TargetsFrom(edges, id, k);
      && Increasing(ts)
      && forall i :: 0 <= i < |ts| ==> k < ts[i] <= |edges| && edges[ts[i] - 1].source == id
  {
    if k < |edges| {
      var rest := TargetsFrom(edges, id, k + 1);
      TargetsFromNext(edges, id, k + 1);
      if edges[k].source == id {
        var ts := [k + 1] + rest;
        assert TargetsFrom(edges, id, k) == ts;
        forall a, b | 0 <= a < b < |ts|
          ensures ts[a] < ts[b]
        {
          assert ts[b] == rest[b - 1];
          if a > 0 {
            assert ts[a] == rest[a - 1];
          }
        }
        forall i | 0 <= i < |ts|
          ensures k < ts[i] <= |edges| && edges[ts[i] - 1].source == id
        {
          if i > 0 {
            assert ts[i] == rest[i - 1];
          }
        }
      }
    }
  }

  /** In a traversal's edge list the targets of one node come in increasing order and
      each lies one level below it. */
  lemma TargetsFromTree(edges: seq<Edge>, depth: seq<nat>, id: nat, k: nat)
    requires TreeEdges(edges, depth)
    ensures var ts := TargetsFrom(edges, id, k);
      && Increasing(ts)
      && forall i :: 0 <= i < |ts| ==>
           && k < ts[i] <= |edges| && edges[ts[i] - 1].source == id
           && depth[ts[i]] == depth[id] + 1
  {
    TargetsFromNext(edges, id, k);
  }

  /** Queued ids are nodes of the tree, queued at their depth. */
  predicate QueueDepths(depth: seq<nat>, q: seq<Pending>) {
    forall i :: 0 <= i < |q| ==> q[i].id < |depth| && q[i].level == depth[q[i].id]
  }

  /** Records of one level wait in increasing id order. */
  predicate QueueOrdered(q: seq<Pending>) {
    forall a, b :: 0 <= a < b < |q| && q[a].level == q[b].level ==> q[a].id < q[b].id
  }

  /** Recorded ids are nodes of the tree, recorded at their depth. */
  predicate LevelDepths(depth: seq<nat>, levels: NodeLevels) {
    forall L, j :: 0 <= L < |levels| && 0 <= j < |levels[L]| ==>
      levels[L][j] < |depth| && depth[levels[L][j]] == L
  }

  predicate LevelsIncreasing(levels: NodeLevels) {
    forall L :: 0 <= L < |levels| ==> Increasing(levels[L])
  }

  /** Records waiting at the last level come after everything recorded there. */
  predicate AfterLast(s: Bfs) {
    |s.levels| > 0 ==>
      var last := s.levels[|s.levels| - 1];
      forall i :: 0 <= i < |s.queue| && s.queue[i].level == |s.levels| - 1 ==>
        |last| > 0 && s.queue[i].id > last[|last| - 1]
  }

  /** Records waiting one level below the last level are children of nodes recorded there. */
  predicate BelowLast(edges: seq<Edge>, s: Bfs) {
    |s.levels| > 0 ==>
      var last := s.levels[|s.levels| - 1];
      forall i :: 0 <= i < |s.queue| && s.queue[i].level == |s.levels| ==>
        0 < s.queue[i].id <= |edges| && edges[s.queue[i].id - 1].source in last
  }

  predicate TreeInv(edges: seq<Edge>, depth: seq<nat>, s: Bfs) {
    && QueueDepths(depth, s.queue) && QueueOrdered(s.queue)
    && LevelDepths(depth, s.levels) && LevelsIncreasing(s.levels)
    && AfterLast(s) && BelowLast(edges, s)
  }

  lemma InitTreeInv(edges: seq<Edge>, depth: seq<nat>)
    requires TreeEdges(edges, depth)
    ensures TreeInv(edges, depth, Init(0))
  {
  }

  /** What a step does to the queue: it drops the head and, for a new id, appends that
      id's targets one level deeper. */
  lemma StepQueue(edges: seq<Edge>, root: nat, s: Bfs) returns (pushed: seq<Pending>)
    requires QueueFits(root, s) && |s.queue| > 0
    ensures s.queue[0].level <= |s.levels|
    ensures Step(edges, s).queue == s.queue[1..] + pushed
    ensures s.queue[0].id in s.visited ==> pushed == []
    ensures s.queue[0].id !in s.visited ==> pushed == Enqueue(Targets(edges, s.queue[0].id), s.queue[0].level + 1)
  {
    pushed := if s.queue[0].id in s.visited then [] else Enqueue(Targets(edges, s.queue[0].id), s.queue[0].level + 1);
  }

  lemma StepQueueDepths(edges: seq<Edge>, depth: seq<nat>, root: nat, s: Bfs)
    requires TreeEdges(edges, depth) && QueueFits(root, s) && QueueDepths(depth, s.queue) && |s.queue| > 0
    ensures s.queue[0].level <= |s.levels|
    ensures QueueDepths(depth, Step(edges, s).queue)
  {
    var pushed := StepQueue(edges, root, s);
    var rest := s.queue[1..];
    var q: seq<Pending> := rest + pushed;
    TargetsFromTree(edges, depth, s.queue[0].id, 0);
    forall i | 0 <= i < |q|
      ensures q[i].id < |depth| && q[i].level == depth[q[i].id]
    {
      if i < |rest| {
        assert q[i] == s.queue[i + 1];
      } else {
        assert q[i] == pushed[i - |rest|];
      }
    }
  }

  /** A child waiting one level below the last level comes before any child of a later
      node of that level. */
  lemma WaitingChildBefore(edges: seq<Edge>, depth: seq<nat>, last: seq<nat>, c: nat, h: nat, L: nat)
    requires TreeEdges(edges, depth) && Increasing(last) && |last| > 0
    requires forall j :: 0 <= j < |last| ==> last[j] < |depth| && depth[last[j]] == L
    requires 0 < c <= |edges| && edges[c - 1].source in last
    requires last[|last| - 1] < h < |depth| && depth[h] == L
    ensures c <= h
  {
    var p := edges[c - 1].source;
    var j :| 0 <= j < |last| && last[j] == p;
    assert p <= last[|last| - 1];
  }

  /** A record waiting one level below the head is a child of a node recorded before the
      head, so it comes no later than the head, and so before every child of the head. */
  lemma WaitingBeforePushed(edges: seq<Edge>, depth: seq<nat>, root: nat, s: Bfs, i: nat)
    requires TreeEdges(edges, depth) && QueueFits(root, s) && QueueDepths(depth, s.queue)
    requires LevelDepths(depth, s.levels) && LevelsIncreasing(s.levels) && AfterLast(s) && BelowLast(edges, s)
    requires 0 < i < |s.queue| && s.queue[i].level == s.queue[0].level + 1
    ensures s.queue[i].id <= s.queue[0].id
  {
    var head := s.queue[0];
    var L := |s.levels| - 1;
    assert head.level == L;
    var last := s.levels[L];
    assert forall j :: 0 <= j < |last| ==> last[j] < |depth| && depth[last[j]] == L;
    WaitingChildBefore(edges, depth, last, s.queue[i].id, head.id, L);
  }

  /** Two ordered queues joined stay ordered when, level by level, the first one's ids
      come before the second one's. */
  lemma OrderedAppend(rest: seq<Pending>, pushed: seq<Pending>)
    requires QueueOrdered(rest) && QueueOrdered(pushed)
    requires forall a, b :: 0 <= a < |rest| && 0 <= b < |pushed| && rest[a].level == pushed[b].level ==>
      rest[a].id < pushed[b].id
    ensures QueueOrdered(rest + pushed)
  {
    var q := rest + pushed;
    forall a, b | 0 <= a < b < |q| && q[a].level == q[b].level
      ensures q[a].id < q[b].id
    {
      if b < |rest| {
        assert q[a] == rest[a] && q[b] == rest[b];
      } else if a < |rest| {
        assert q[a] == rest[a] && q[b] == pushed[b - |rest|];
      } else {
        assert q[a] == pushed[a - |rest|] && q[b] == pushed[b - |rest|];
      }
    }
  }

  /** Every record still waiting comes, level by level, before the head's children. */
  lemma PushedAfterWaiting(edges: seq<Edge>, depth: seq<nat>, root: nat, s: Bfs)
    requires TreeEdges(edges, depth) && QueueFits(root, s) && |s.queue| > 0
    requires QueueDepths(depth, s.queue)
    requires LevelDepths(depth, s.levels) && LevelsIncreasing(s.levels) && AfterLast(s) && BelowLast(edges, s)
    ensures var rest, pushed := s.queue[1..], Enqueue(Targets(edges, s.queue[0].id), s.queue[0].level + 1);
      forall a, b :: 0 <= a < |rest| && 0 <= b < |pushed| && rest[a].level == pushed[b].level ==>
        rest[a].id < pushed[b].id
  {
    var head := s.queue[0];
    var ts := Targets(edges, head.id);
    var rest, pushed := s.queue[1..], Enqueue(ts, head.level + 1);
    TargetsFromTree(edges, depth, head.id, 0);
    assert forall b :: 0 <= b < |ts| ==> ts[b] > head.id;
    forall a | 0 <= a < |rest| && rest[a].level == head.level + 1
      ensures rest[a].id <= head.id
    {
      assert rest[a] == s.queue[a + 1];
      WaitingBeforePushed(edges, depth, root, s, a + 1);
    }
  }

  lemma StepQueueOrdered(edges: seq<Edge>, depth: seq<nat>, root: nat, s: Bfs)
    requires TreeEdges(edges, depth) && QueueFits(root, s) && |s.queue| > 0
    requires QueueDepths(depth, s.queue) && QueueOrdered(s.queue)
    requires LevelDepths(depth, s.levels) && LevelsIncreasing(s.levels) && AfterLast(s) && BelowLast(edges, s)
    ensures s.queue[0].level <= |s.levels|
    ensures QueueOrdered(Step(edges, s).queue)
  {
    var pushed := StepQueue(edges, root, s);
    var head := s.queue[0];
    var rest := s.queue[1..];
    assert QueueOrdered(rest) by {
      forall a, b | 0 <= a < b < |rest| && rest[a].level == rest[b].level
        ensures rest[a].id < rest[b].id
      {
        assert rest[a] == s.queue[a + 1] && rest[b] == s.queue[b + 1];
      }
    }
    if head.id in s.visited {
      assert rest + pushed == rest;
    } else {
      TargetsFromTree(edges, depth, head.id, 0);
      PushedAfterWaiting(edges, depth, root, s);
      OrderedAppend(rest, pushed);
    }
  }

  lemma StepLevelDepths(edges: seq<Edge>, depth: seq<nat>, root: nat, s: Bfs)
    requires QueueFits(root, s) && QueueDepths(depth, s.queue) && LevelDepths(depth, s.levels) && |s.queue| > 0
    ensures s.queue[0].level <= |s.levels|
    ensures LevelDepths(depth, Step(edges, s).levels)
  {
  }

  lemma StepLevelsIncreasing(edges: seq<Edge>, root: nat, s: Bfs)
    requires QueueFits(root, s) && LevelsIncreasing(s.levels) && AfterLast(s) && |s.queue| > 0
    ensures s.queue[0].level <= |s.levels|
    ensures LevelsIncreasing(Step(edges, s).levels)
  {
    var head := s.queue[0];
    var t := Step(edges, s);
    if head.id !in s.visited && head.level < |s.levels| {
      var L := head.level;
      var lv := s.levels[L];
      assert t.levels[L] == lv + [head.id];
      forall a, b | 0 <= a < b < |t.levels[L]|
        ensures t.levels[L][a] < t.levels[L][b]
      {
        if b == |lv| {
          assert lv[a] <= lv[|lv| - 1];
        }
      }
    }
  }

  lemma StepAfterLast(edges: seq<Edge>, root: nat, s: Bfs)
    requires QueueFits(root, s) && QueueOrdered(s.queue) && AfterLast(s) && |s.queue| > 0
    ensures s.queue[0].level <= |s.levels|
    ensures AfterLast(Step(edges, s))
  {
    var pushed := StepQueue(edges, root, s);
    var head := s.queue[0];
    var t := Step(edges, s);
    var rest := s.queue[1..];
    if head.id !in s.visited {
      var last := t.levels[|t.levels| - 1];
      assert last[|last| - 1] == head.id;
      forall i | 0 <= i < |t.queue| && t.queue[i].level == |t.levels| - 1
        ensures t.queue[i].id > head.id
      {
        if i < |rest| {
          assert t.queue[i] == s.queue[i + 1];
        }
      }
    } else {
      forall i | 0 <= i < |t.queue|
        ensures t.queue[i] == s.queue[i + 1]
      {
      }
    }
  }

  lemma StepBelowLast(edges: seq<Edge>, depth: seq<nat>, root: nat, s: Bfs)
    requires TreeEdges(edges, depth) && QueueFits(root, s) && BelowLast(edges, s) && |s.queue| > 0
    ensures s.queue[0].level <= |s.levels|
    ensures BelowLast(edges, Step(edges, s))
  {
    var pushed := StepQueue(edges, root, s);
    var head := s.queue[0];
    var t := Step(edges, s);
    var rest := s.queue[1..];
    TargetsFromTree(edges, depth, head.id, 0);
    if head.id !in s.visited {
      var last := t.levels[|t.levels| - 1];
      assert head.id in last;
      forall i | 0 <= i < |t.queue| && t.queue[i].level == |t.levels|
        ensures 0 < t.queue[i].id <= |edges| && edges[t.queue[i].id - 1].source in last
      {
        if i < |rest| {
          assert t.queue[i] == s.queue[i + 1];
          assert head.level == |s.levels| - 1 by {
            assert head.level <= s.queue[i + 1].level;
          }
        }
      }
    } else {
      forall i | 0 <= i < |t.queue|
        ensures t.queue[i] == s.queue[i + 1]
      {
      }
    }
  }

  lemma StepTreeInv(edges: seq<Edge>, depth: seq<nat>, root: nat, s: Bfs)
    requires TreeEdges(edges, depth) && QueueFits(root, s) && TreeInv(edges, depth, s) && |s.queue| > 0
    ensures s.queue[0].level <= |s.levels|
    ensures TreeInv(edges, depth, Step(edges, s))
  {
    StepQueueDepths(edges, depth, root, s);
    StepQueueOrdered(edges, depth, root, s);
    StepLevelDepths(edges, depth, root, s);
    StepLevelsIncreasing(edges, root, s);
    StepAfterLast(edges, root, s);
    StepBelowLast(edges, depth, root, s);
  }

  // ---------------------------------------------------------------------------
  // When the queue runs dry
  // ---------------------------------------------------------------------------

  /** Reference grouping: the ids below `n` at depth `L`, in increasing order. */
  function AtDepth(edges: seq<Edge>, n: nat, L: nat): (r: seq<nat>)
    ensures forall x: nat :: x in r <==> x < n && Depth(edges, x) == L
    ensures Increasing(r)
  {
    if n == 0 then []
    else
      var r0 := AtDepth(edges, n - 1, L);
      if Depth(edges, n - 1) == L then IncreasingSnoc(r0, n - 1); r0 + [n - 1] else r0
  }

  lemma IncreasingSnoc(r: seq<nat>, x: nat)
    requires Increasing(r) && forall y :: y in r ==> y < x
    ensures Increasing(r + [x])
  {
    forall a, b | 0 <= a < b < |r + [x]|
      ensures (r + [x])[a] < (r + [x])[b]
    {
      assert (r + [x])[a] == r[a] && r[a] in r;
    }
  }

  function DepthSeq(edges: seq<Edge>, n: nat): (d: seq<nat>)
    ensures |d| == n && forall i :: 0 <= i < n ==> d[i] == Depth(edges, i)
  {
    seq(n, i requires 0 <= i < n => Depth(edges, i))
  }

  lemma TreeEdgesOfTree(nodes: seq<Node>, edges: seq<Edge>)
    requires TreeShaped(nodes, edges) && NearestParents(edges)
    ensures TreeEdges(edges, DepthSeq(edges, |nodes|))
  {
    var d := DepthSeq(edges, |nodes|);
    forall k | 0 <= k < |edges|
      ensures d[k + 1] == d[edges[k].source] + 1
    {
      DepthStep(edges, k);
    }
  }

  /** Two increasing lists with the same elements are the same list. */
  lemma {:induction false} IncreasingUnique(a: seq<nat>, b: seq<nat>)
    requires Increasing(a) && Increasing(b)
    requires forall x :: x in a <==> x in b
    decreases |a|
    ensures a == b
  {
    assert |a| > 0 ==> a[0] in a;
    assert |b| > 0 ==> b[0] in b;
    if |a| > 0 && |b| > 0 {
      var i :| 0 <= i < |b| && b[i] == a[0];
      var j :| 0 <= j < |a| && a[j] == b[0];
      assert a[0] == b[0];
      forall x
        ensures x in a[1..] ==> x in b[1..]
      {
        if x in a[1..] {
          var k :| 0 <= k < |a| - 1 && a[1..][k] == x;
          assert a[k + 1] == x && x in a;
          var m :| 0 <= m < |b| && b[m] == x;
          assert m != 0;
          assert b[1..][m - 1] == x;
        }
      }
      forall x
        ensures x in b[1..] ==> x in a[1..]
      {
        if x in b[1..] {
          var k :| 0 <= k < |b| - 1 && b[1..][k] == x;
          assert b[k + 1] == x && x in b;
          var m :| 0 <= m < |a| && a[m] == x;
          assert m != 0;
          assert a[1..][m - 1] == x;
        }
      }
      IncreasingUnique(a[1..], b[1..]);
      assert a == [a[0]] + a[1..] && b == [b[0]] + b[1..];
    }
  }

  /** Once the queue is empty, the recorded ids are closed under edges. */
  lemma DoneClosed(edges: seq<Edge>, root: nat, s: Bfs)
    requires GenInv(edges, root, s) && |s.queue| == 0
    ensures |s.levels| > 0
    ensures forall k :: 0 <= k < |edges| && edges[k].source in Placed(s.levels) ==> edges[k].target in Placed(s.levels)
  {
  }

  /** In the traversal's tree every node is recorded. */
  lemma {:induction false} DoneAll(edges: seq<Edge>, depth: seq<nat>, s: Bfs, i: nat)
    requires TreeEdges(edges, depth) && GenInv(edges, 0, s) && |s.queue| == 0 && i < |depth|
    decreases i
    ensures i in Placed(s.levels)
  {
    DoneClosed(edges, 0, s);
    if i == 0 {
      assert 0 in s.levels[0];
    } else {
      DoneAll(edges, depth, s, edges[i - 1].source);
      assert edges[i - 1].target == i;
    }
  }

  /** In the traversal's tree level `L` lists exactly the nodes at depth `L`, in id order. */
  lemma DoneLevels(edges: seq<Edge>, depth: seq<nat>, s: Bfs)
    requires TreeEdges(edges, depth) && GenInv(edges, 0, s) && TreeInv(edges, depth, s) && |s.queue| == 0
    requires forall i :: 0 <= i < |depth| ==> depth[i] == Depth(edges, i)
    ensures forall L :: 0 <= L < |s.levels| ==> s.levels[L] == AtDepth(edges, |depth|, L)
    ensures forall i :: 0 <= i < |depth| ==> Depth(edges, i) < |s.levels|
  {
    forall i | 0 <= i < |depth|
      ensures Depth(edges, i) < |s.levels| && i in s.levels[Depth(edges, i)]
    {
      DoneAll(edges, depth, s, i);
      var L, j :| 0 <= L < |s.levels| && 0 <= j < |s.levels[L]| && s.levels[L][j] == i;
    }
    forall L | 0 <= L < |s.levels|
      ensures s.levels[L] == AtDepth(edges, |depth|, L)
    {
      IncreasingUnique(s.levels[L], AtDepth(edges, |depth|, L));
    }
  }

  // ---------------------------------------------------------------------------
  // The loop
  // ---------------------------------------------------------------------------

  /** Levels grouped by depth record every node once: node `i` sits in the level of its
      depth and in no other, and nothing else is recorded. */
  lemma LevelsPartition(edges: seq<Edge>, n: nat, levels: NodeLevels)
    requires forall L :: 0 <= L < |levels| ==> levels[L] == AtDepth(edges, n, L)
    requires forall i :: 0 <= i < n ==> Depth(edges, i) < |levels|
    ensures forall i, L :: 0 <= i < n && 0 <= L < |levels| ==> (i in levels[L] <==> L == Depth(edges, i))
    ensures forall x: nat :: x in Placed(levels) <==> x < n
  {
    forall x | x in Placed(levels)
      ensures x < n
    {
      var L :| 0 <= L < |levels| && x in levels[L];
    }
    forall i | 0 <= i < n
      ensures i in Placed(levels)
    {
      assert i in levels[Depth(edges, i)];
    }
  }

  /** What the finished loop has recorded on a traversal's tree of `n` nodes. */
  lemma DoneByDepth(edges: seq<Edge>, n: nat, s: Bfs)
    requires TreeEdges(edges, DepthSeq(edges, n)) && GenInv(edges, 0, s) && |s.queue| == 0
    requires TreeInv(edges, DepthSeq(edges, n), s)
    ensures ByDepth(edges, n, s.levels)
  {
    DoneLevels(edges, DepthSeq(edges, n), s);
    LevelsPartition(edges, n, s.levels);
    forall L, x | 0 <= L < |s.levels| && x in s.levels[L]
      ensures x < n
    {
      assert x in Placed(s.levels);
    }
  }

  /** Levels that group `n` nodes by depth are exactly the per-depth lists `AtDepth`
      gives. */
  lemma ByDepthIsAtDepth(edges: seq<Edge>, n: nat, levels: NodeLevels, D: nat)
    requires ByDepth(edges, n, levels) && D < |levels|
    ensures levels[D] == AtDepth(edges, n, D)
  {
    IncreasingUnique(levels[D], AtDepth(edges, n, D));
  }

  /** What the loop leaves behind for any edge list: no id twice, no empty level, only the
      start and edge targets recorded, and every edge out of a recorded id leading to a
      recorded id. */
  predicate Recorded(edges: seq<Edge>, root: nat, levels: NodeLevels) {
    && Distinct(levels) && (forall L :: 0 <= L < |levels| ==> |levels[L]| > 0)
    && Placed(levels) <= Universe(edges, root)
    && (forall k :: 0 <= k < |edges| && edges[k].source in Placed(levels) ==> edges[k].target in Placed(levels))
  }

  /** The levels group the nodes `0 .. n - 1` by depth: node `i` is in level `L` exactly
      when its depth is `L`, nothing else is recorded, and each level is in id order. */
  predicate ByDepth(edges: seq<Edge>, n: nat, levels: NodeLevels) {
    && (forall i :: 0 <= i < n ==> Depth(edges, i) < |levels|)
    && (forall i, L :: 0 <= i < n && 0 <= L < |levels| ==> (i in levels[L] <==> L == Depth(edges, i)))
    && (forall L, x :: 0 <= L < |levels| && x in levels[L] ==> x < n)
    && (forall L :: 0 <= L < |levels| ==> Increasing(levels[L]))
  }

  /** The `while (queue.length > 0)` loop of `calculateLevels`, from `root` queued at level
      0 until the queue is empty, returning `nodeLevels`. When `tree` holds, the edges are
      those of a traversal's tree over `n` nodes, and the levels group them by depth. */
  /** On a traversal tree recorded by depth, the target of every edge sits one level
      below its source: the pass that records a node queues its children one deeper. */
  lemma ChildOneLevelDown(nodes: seq<Node>, edges: seq<Edge>, levels: NodeLevels, k: nat, L: nat)
    requires TreeShaped(nodes, edges) && ByDepth(edges, |nodes|, levels)
    requires k < |edges| && L < |levels| && edges[k].source in levels[L]
    ensures L + 1 < |levels| && edges[k].target in levels[L + 1]
  {
    DepthStep(edges, k);
  }

  method Drain(edges: seq<Edge>, root: nat, tree: bool, n: nat) returns (levels: NodeLevels)
    requires tree ==> root == 0 && TreeEdges(edges, DepthSeq(edges, n))
    ensures |levels| > 0 && levels[0] == [root]
    ensures Recorded(edges, root, levels)
    ensures tree ==> ByDepth(edges, n, levels)
  {
    var s := Init(root);
    InitGenInv(edges, root);
    if tree {
      InitTreeInv(edges, DepthSeq(edges, n));
    }
    while |s.queue| > 0
      invariant GenInv(edges, root, s)
      invariant tree ==> TreeInv(edges, DepthSeq(edges, n), s)
      decreases |Universe(edges, root) - s.visited|, |s.queue|
    {
      StepGenInv(edges, root, s);
      StepDecreases(edges, root, s);
      if tree {
        StepTreeInv(edges, DepthSeq(edges, n), root, s);
      }
      s := Step(edges, s);
    }
    DoneClosed(edges, root, s);
    if tree {
      DoneByDepth(edges, n, s);
    }
    levels := s.levels;
  }

  /** `calculateLevels`: breadth-first from the first node, recording each id the first
      time it leaves the queue. For any edge list the result records the first node alone
      at level 0, no id twice, no empty level, and is closed under edges (every reachable
      id is recorded). For the tree a traversal builds, level `L` lists exactly the nodes
      at depth `L`, in increasing id order. */
  method CalculateLevels(nodes: seq<Node>, edges: seq<Edge>) returns (r: NodeLevels)
    requires |nodes| > 0
    ensures |r| > 0 && r[0] == [nodes[0].id]
    ensures Recorded(edges, nodes[0].id, r)
    ensures TreeShaped(nodes, edges) && NearestParents(edges) ==> ByDepth(edges, |nodes|, r)
  {
    var tree := TreeShaped(nodes, edges) && NearestParents(edges);
    if tree {
      TreeEdgesOfTree(nodes, edges);
      assert nodes[0].id == 0;
    }
    r := Drain(edges, nodes[0].id, tree, |nodes|);
  }
}
