/** A workflow's nodes and edges as a directed graph: paths, cycles, topological orders, levels. */
module WorkflowGraph {
  import opened Sequences

  type NodeId = string

  datatype Edge = Edge(source: NodeId, target: NodeId)

  /** At least one node; consecutive nodes are joined by edges. */
  ghost predicate IsPath(edges: seq<Edge>, path: seq<NodeId>) {
    |path| >= 1 && forall i :: 0 <= i < |path| - 1 ==> Edge(path[i], path[i + 1]) in edges
  }

  ghost predicate IsCycle(edges: seq<Edge>, path: seq<NodeId>) {
    IsPath(edges, path) && |path| >= 2 && path[0] == path[|path| - 1]
  }

  ghost predicate HasCycle(edges: seq<Edge>) {
    exists path :: IsCycle(edges, path)
  }

  ghost predicate EndpointsKnown(ids: seq<NodeId>, edges: seq<Edge>) {
    forall e :: e in edges ==> e.source in ids && e.target in ids
  }

  /** A permutation of the nodes that puts every edge's source before its target. */
  ghost predicate IsTopologicalOrder(ids: seq<NodeId>, edges: seq<Edge>, order: seq<NodeId>) {
    && Distinct(order)
    && (forall n :: n in order <==> n in ids)
    && (forall i, j :: 0 <= i < |order| && 0 <= j < |order| && Edge(order[i], order[j]) in edges ==> i < j)
  }

  ghost predicate EndsAt(edges: seq<Edge>, path: seq<NodeId>, n: NodeId) {
    IsPath(edges, path) && path[|path| - 1] == n
  }

  /** k is the number of edges on a longest path that ends at n. */
  ghost predicate IsLevel(edges: seq<Edge>, n: NodeId, k: nat) {
    && (exists path :: EndsAt(edges, path, n) && |path| == k + 1)
    && (forall path :: EndsAt(edges, path, n) ==> |path| <= k + 1)
  }

  /** A numbering in which every node with predecessors is one more than its highest predecessor,
      and the others are 0. */
  ghost predicate LevelsAt(edges: seq<Edge>, lev: map<NodeId, nat>, n: NodeId) {
    && n in lev
    && (forall e :: e in edges && e.target == n ==> e.source in lev && lev[e.source] < lev[n])
    && (lev[n] > 0 ==> exists e :: e in edges && e.target == n && e.source in lev && lev[e.source] + 1 == lev[n])
  }

  lemma ExtendPath(edges: seq<Edge>, path: seq<NodeId>, n: NodeId)
    requires IsPath(edges, path) && Edge(path[|path| - 1], n) in edges
    ensures EndsAt(edges, path + [n], n)
  {
    var longer := path + [n];
    forall i | 0 <= i < |longer| - 1
      ensures Edge(longer[i], longer[i + 1]) in edges
    {
      if i < |path| - 1 {
        assert Edge(path[i], path[i + 1]) in edges;
      }
    }
  }

  lemma SubPath(edges: seq<Edge>, path: seq<NodeId>, i: nat, j: nat)
    requires IsPath(edges, path) && i < j < |path|
    ensures IsPath(edges, path[i..j + 1])
  {
    var part := path[i..j + 1];
    forall k | 0 <= k < |part| - 1
      ensures Edge(part[k], part[k + 1]) in edges
    {
      assert Edge(path[i + k], path[i + k + 1]) in edges;
    }
  }

  lemma {:induction false} LevelsBoundPaths(edges: seq<Edge>, lev: map<NodeId, nat>, path: seq<NodeId>, n: NodeId)
    requires forall m :: m in lev ==> LevelsAt(edges, lev, m)
    requires n in lev && EndsAt(edges, path, n)
    ensures path[0] in lev && lev[path[0]] + |path| - 1 <= lev[n]
    decreases |path|
  {
    if |path| > 1 {
      var e := Edge(path[|path| - 2], path[|path| - 2 + 1]);
      assert e in edges && LevelsAt(edges, lev, n);
      LevelsBoundPaths(edges, lev, path[..|path| - 1], e.source);
    }
  }

  lemma {:induction false} LevelsGivePath(edges: seq<Edge>, lev: map<NodeId, nat>, n: NodeId)
      returns (path: seq<NodeId>)
    requires forall m :: m in lev ==> LevelsAt(edges, lev, m)
    requires n in lev
    ensures EndsAt(edges, path, n) && |path| == lev[n] + 1
    decreases lev[n]
  {
    if lev[n] == 0 {
      path := [n];
    } else {
      assert LevelsAt(edges, lev, n);
      var e :| e in edges && e.target == n && e.source in lev && lev[e.source] + 1 == lev[n];
      var before := LevelsGivePath(edges, lev, e.source);
      ExtendPath(edges, before, n);
      path := before + [n];
    }
  }

  /** Such a numbering is the longest-path level. */
  lemma LevelsAreLongestPaths(edges: seq<Edge>, lev: map<NodeId, nat>, n: NodeId)
    requires forall m :: m in lev ==> LevelsAt(edges, lev, m)
    requires n in lev
    ensures IsLevel(edges, n, lev[n])
  {
    var path := LevelsGivePath(edges, lev, n);
    forall p | EndsAt(edges, p, n)
      ensures |p| <= lev[n] + 1
    {
      LevelsBoundPaths(edges, lev, p, n);
    }
  }

  lemma LevelUnique(edges: seq<Edge>, n: NodeId, j: nat, k: nat)
    requires IsLevel(edges, n, j) && IsLevel(edges, n, k)
    ensures j == k
  {
  }

  /** A graph whose nodes can all be numbered has no cycle. */
  lemma LevelsExcludeCycles(ids: seq<NodeId>, edges: seq<Edge>, lev: map<NodeId, nat>)
    requires EndpointsKnown(ids, edges)
    requires forall n :: n in ids ==> n in lev
    requires forall m :: m in lev ==> LevelsAt(edges, lev, m)
    ensures !HasCycle(edges)
  {
    if path :| IsCycle(edges, path) {
      var n := path[|path| - 1];
      var e := Edge(path[|path| - 2], path[|path| - 2 + 1]);
      assert e in edges;
      assert EndsAt(edges, path, n);
      LevelsBoundPaths(edges, lev, path, n);
    }
  }

  ghost predicate HasPredecessorIn(edges: seq<Edge>, n: NodeId, nodes: set<NodeId>) {
    exists e :: e in edges && e.target == n && e.source in nodes
  }

  lemma RepeatIsCycle(edges: seq<Edge>, nodes: set<NodeId>, walk: seq<NodeId>)
    requires IsPath(edges, walk) && |walk| > |nodes|
    requires forall m :: m in walk ==> m in nodes
    ensures HasCycle(edges)
  {
    Pigeonhole(walk, nodes);
    var i, j :| 0 <= i < j < |walk| && walk[i] == walk[j];
    SubPath(edges, walk, i, j);
    assert IsCycle(edges, walk[i..j + 1]);
  }

  lemma {:induction false} WalkBack(edges: seq<Edge>, stuck: set<NodeId>, n: NodeId, steps: nat)
      returns (walk: seq<NodeId>)
    requires n in stuck
    requires forall m :: m in stuck ==> HasPredecessorIn(edges, m, stuck)
    ensures IsPath(edges, walk) && |walk| == steps + 1
    ensures forall m :: m in walk ==> m in stuck
    ensures walk[steps] == n
    decreases steps
  {
    if steps == 0 {
      walk := [n];
    } else {
      var e :| e in edges && e.target == n && e.source in stuck;
      var before := WalkBack(edges, stuck, e.source, steps - 1);
      ExtendPath(edges, before, n);
      walk := before + [n];
    }
  }

  /** If every node of a non-empty set has a predecessor in the set, walking backwards repeats a
      node, and the walk between the two visits is a cycle. */
  lemma StuckMeansCycle(edges: seq<Edge>, stuck: set<NodeId>)
    requires stuck != {}
    requires forall n :: n in stuck ==> HasPredecessorIn(edges, n, stuck)
    ensures HasCycle(edges)
  {
    var n :| n in stuck;
    var walk := WalkBack(edges, stuck, n, |stuck|);
    RepeatIsCycle(edges, stuck, walk);
  }

  // ---- Counting incoming edges ----

  /** The number of edges into n, duplicates included, whose source is not in done. */
  ghost function PendingIn(edges: seq<Edge>, done: set<NodeId>, n: NodeId): nat {
    if edges == [] then 0
    else PendingIn(edges[..|edges| - 1], done, n)
         + var e := edges[|edges| - 1]; if e.target == n && e.source !in done then 1 else 0
  }

  /** The targets of u's outgoing edges, in edge order, duplicates included. */
  ghost function Targets(edges: seq<Edge>, u: NodeId): seq<NodeId> {
    if edges == [] then []
    else Targets(edges[..|edges| - 1], u)
         + var e := edges[|edges| - 1]; if e.source == u then [e.target] else []
  }

  /** Finishing u removes from n's pending count one unit per edge from u to n. */
  lemma {:induction false} FinishOne(edges: seq<Edge>, done: set<NodeId>, u: NodeId, n: NodeId)
    requires u !in done
    ensures PendingIn(edges, done, n) == PendingIn(edges, done + {u}, n) + multiset(Targets(edges, u))[n]
  {
    if edges != [] {
      FinishOne(edges[..|edges| - 1], done, u, n);
    }
  }

  lemma {:induction false} PendingZero(edges: seq<Edge>, done: set<NodeId>, n: NodeId)
    ensures PendingIn(edges, done, n) == 0 <==> forall e :: e in edges && e.target == n ==> e.source in done
  {
    if edges != [] {
      var init, last := edges[..|edges| - 1], edges[|edges| - 1];
      PendingZero(init, done, n);
      assert edges == init + [last];
    }
  }

  lemma {:induction false} TargetsAreEdges(edges: seq<Edge>, u: NodeId, n: NodeId)
    ensures n in Targets(edges, u) <==> Edge(u, n) in edges
  {
    if edges != [] {
      var init, last := edges[..|edges| - 1], edges[|edges| - 1];
      TargetsAreEdges(init, u, n);
      assert edges == init + [last];
    }
  }
}
