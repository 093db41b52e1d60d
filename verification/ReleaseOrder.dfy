/** The order a first-in first-out queue gives: nodes without predecessors in definition order, every
    other one by when its last predecessor comes, and then by that predecessor's edges. */
module ReleaseOrder {
  import opened Sequences
  import opened WorkflowGraph

  /** When a node's turn to be queued comes: at which position of the order its last predecessor stands,
      -1 if it has none, and by which edge from there, or at which place in the definition. */
  datatype Turn = Turn(after: int, at: int)

  predicate Earlier(a: Turn, b: Turn) {
    a.after < b.after || (a.after == b.after && a.at < b.at)
  }

  /** Every predecessor of n stands at position `last` or before it. */
  ghost predicate AllWithin(edges: seq<Edge>, order: seq<NodeId>, last: int, n: NodeId) {
    forall e :: e in edges && e.target == n ==> exists i :: 0 <= i <= last && i < |order| && order[i] == e.source
  }

  /** Edges may be repeated; the last one counts. */
  ghost predicate LastEdge(edges: seq<Edge>, e: Edge, at: int) {
    0 <= at < |edges| && edges[at] == e && forall k :: at < k < |edges| ==> edges[k] != e
  }

  ghost predicate TurnOf(ids: seq<NodeId>, edges: seq<Edge>, order: seq<NodeId>, n: NodeId, t: Turn) {
    && AllWithin(edges, order, t.after, n)
    && if t.after < 0 then t.after == -1 && 0 <= t.at < |ids| && ids[t.at] == n
       else t.after < |order| && LastEdge(edges, Edge(order[t.after], n), t.at)
  }

  ghost predicate InTurn(turns: seq<Turn>) {
    forall i, j :: 0 <= i < j < |turns| ==> Earlier(turns[i], turns[j])
  }

  ghost predicate TurnsAre(ids: seq<NodeId>, edges: seq<Edge>, order: seq<NodeId>, nodes: seq<NodeId>,
                           turns: seq<Turn>)
  {
    |turns| == |nodes| && forall i :: 0 <= i < |nodes| ==> TurnOf(ids, edges, order, nodes[i], turns[i])
  }

  /** The nodes come in the order of their turns. */
  ghost predicate FirstInFirstOut(ids: seq<NodeId>, edges: seq<Edge>, order: seq<NodeId>) {
    exists turns :: TurnsAre(ids, edges, order, order, turns) && InTurn(turns)
  }

  // ---- There is only one such order ----

  /** The predecessors of a node all stand before it. */
  lemma TurnIsBefore(ids: seq<NodeId>, edges: seq<Edge>, order: seq<NodeId>, i: nat, t: Turn)
    requires IsTopologicalOrder(ids, edges, order) && i < |order| && TurnOf(ids, edges, order, order[i], t)
    ensures t.after < i
  {
    if t.after >= 0 {
      assert Edge(order[t.after], order[i]) in edges;
    }
  }

  /** A turn is the same in an order that agrees up to the last predecessor. */
  lemma SameTurn(ids: seq<NodeId>, edges: seq<Edge>, a: seq<NodeId>, b: seq<NodeId>, k: nat, n: NodeId, t: Turn)
    requires k <= |a| && k <= |b| && a[..k] == b[..k]
    requires TurnOf(ids, edges, a, n, t) && t.after < k
    ensures TurnOf(ids, edges, b, n, t)
  {
    forall e | e in edges && e.target == n
      ensures exists i :: 0 <= i <= t.after && i < |b| && b[i] == e.source
    {
      var i :| 0 <= i <= t.after && i < |a| && a[i] == e.source;
      assert b[i] == b[..k][i] == a[..k][i];
    }
    if t.after >= 0 {
      assert b[t.after] == b[..k][t.after] == a[..k][t.after];
    }
  }

  lemma TurnUnique(ids: seq<NodeId>, edges: seq<Edge>, order: seq<NodeId>, n: NodeId, t: Turn, u: Turn)
    requires Distinct(ids) && Distinct(order)
    requires TurnOf(ids, edges, order, n, t) && TurnOf(ids, edges, order, n, u)
    ensures t == u
  {
    if t.after >= 0 {
      assert edges[t.at] in edges;
    }
    if u.after >= 0 {
      assert edges[u.at] in edges;
    }
  }

  lemma DiffersLater(a: seq<NodeId>, b: seq<NodeId>, k: nat, i: nat)
    requires Distinct(b) && k < |a| && k < |b| && i < |a|
    requires a[..k] == b[..k] && a[k] != b[k] && a[i] == b[k]
    ensures i > k
  {
    assert forall m :: 0 <= m < k ==> a[..k][m] == a[m] && b[..k][m] == b[m];
  }

  /** Where an order first differs from another, the node it has there has its turn before the node the
      other one has there. */
  lemma TurnComesFirst(ids: seq<NodeId>, edges: seq<Edge>, a: seq<NodeId>, b: seq<NodeId>, k: nat, t: Turn, u: Turn)
    requires Distinct(ids) && IsTopologicalOrder(ids, edges, a) && IsTopologicalOrder(ids, edges, b)
    requires FirstInFirstOut(ids, edges, a)
    requires k < |a| && k < |b| && a[..k] == b[..k] && a[k] != b[k]
    requires TurnOf(ids, edges, a, a[k], t) && TurnOf(ids, edges, b, b[k], u)
    ensures Earlier(t, u)
  {
    var turns :| TurnsAre(ids, edges, a, a, turns) && InTurn(turns);
    TurnUnique(ids, edges, a, a[k], t, turns[k]);
    assert b[k] in a;
    var i :| 0 <= i < |a| && a[i] == b[k];
    DiffersLater(a, b, k, i);
    TurnIsBefore(ids, edges, b, k, u);
    SameTurn(ids, edges, b, a, k, b[k], u);
    TurnUnique(ids, edges, a, b[k], u, turns[i]);
  }

  lemma NextAgrees(ids: seq<NodeId>, edges: seq<Edge>, a: seq<NodeId>, b: seq<NodeId>, k: nat)
    requires Distinct(ids) && IsTopologicalOrder(ids, edges, a) && IsTopologicalOrder(ids, edges, b)
    requires FirstInFirstOut(ids, edges, a) && FirstInFirstOut(ids, edges, b)
    requires k < |a| && k < |b| && a[..k] == b[..k]
    ensures a[k] == b[k]
  {
    var turnsA :| TurnsAre(ids, edges, a, a, turnsA) && InTurn(turnsA);
    var turnsB :| TurnsAre(ids, edges, b, b, turnsB) && InTurn(turnsB);
    if a[k] != b[k] {
      TurnComesFirst(ids, edges, a, b, k, turnsA[k], turnsB[k]);
      TurnComesFirst(ids, edges, b, a, k, turnsB[k], turnsA[k]);
    }
  }

  lemma {:induction false} SamePrefix(ids: seq<NodeId>, edges: seq<Edge>, a: seq<NodeId>, b: seq<NodeId>, k: nat)
    requires Distinct(ids) && IsTopologicalOrder(ids, edges, a) && IsTopologicalOrder(ids, edges, b)
    requires FirstInFirstOut(ids, edges, a) && FirstInFirstOut(ids, edges, b)
    requires k <= |a| && k <= |b|
    ensures a[..k] == b[..k]
  {
    if k > 0 {
      SamePrefix(ids, edges, a, b, k - 1);
      NextAgrees(ids, edges, a, b, k - 1);
      assert a[..k] == a[..k - 1] + [a[k - 1]] && b[..k] == b[..k - 1] + [b[k - 1]];
    }
  }

  /** First in, first out leaves no choice: nodes, edges and definition order fix the emitted order. */
  lemma OrderIsUnique(ids: seq<NodeId>, edges: seq<Edge>, a: seq<NodeId>, b: seq<NodeId>)
    requires Distinct(ids) && IsTopologicalOrder(ids, edges, a) && IsTopologicalOrder(ids, edges, b)
    requires FirstInFirstOut(ids, edges, a) && FirstInFirstOut(ids, edges, b)
    ensures a == b
  {
    DistinctCardinality(a);
    DistinctCardinality(b);
    assert Elements(a) == Elements(b);
    SamePrefix(ids, edges, a, b, |a|);
    assert a[..|a|] == a && b[..|b|] == b;
  }

  // ---- The edges of one node ----

  /** Where in the definition the edges out of u stand. */
  ghost function Outgoing(edges: seq<Edge>, u: NodeId): seq<nat> {
    if edges == [] then []
    else Outgoing(edges[..|edges| - 1], u) + if edges[|edges| - 1].source == u then [|edges| - 1] else []
  }

  /** The targets of u are those of its edges, in the order of the definition. */
  lemma {:induction false} TargetsInEdgeOrder(edges: seq<Edge>, u: NodeId)
    ensures |Outgoing(edges, u)| == |Targets(edges, u)|
    ensures forall k :: 0 <= k < |Targets(edges, u)| ==>
              Outgoing(edges, u)[k] < |edges| && edges[Outgoing(edges, u)[k]] == Edge(u, Targets(edges, u)[k])
    ensures forall i, j :: 0 <= i < j < |Outgoing(edges, u)| ==> Outgoing(edges, u)[i] < Outgoing(edges, u)[j]
    ensures forall i :: 0 <= i < |edges| && edges[i].source == u ==> i in Outgoing(edges, u)
  {
    if edges != [] {
      var init := edges[..|edges| - 1];
      TargetsInEdgeOrder(init, u);
      assert forall i :: 0 <= i < |init| && edges[i].source == u ==> init[i].source == u;
    }
  }

  /** A target that does not come again is reached by the last edge to it. */
  lemma LastTarget(edges: seq<Edge>, u: NodeId, j: nat)
    requires j < |Targets(edges, u)| && Targets(edges, u)[j] !in Targets(edges, u)[j + 1..]
    ensures j < |Outgoing(edges, u)| && LastEdge(edges, Edge(u, Targets(edges, u)[j]), Outgoing(edges, u)[j])
  {
    TargetsInEdgeOrder(edges, u);
    var ts, at := Targets(edges, u), Outgoing(edges, u);
    forall k | at[j] < k < |edges| && edges[k].source == u
      ensures edges[k].target != ts[j]
    {
      var m :| 0 <= m < |at| && at[m] == k;
      assert m > j && ts[j + 1..][m - j - 1] == ts[m];
    }
  }
}
