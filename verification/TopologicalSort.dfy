/** Kahn's algorithm with a first-in first-out queue. It fails exactly on graphs with a cycle; otherwise it
    emits the one topological order in which every node comes in its turn, and this order is also by
    longest-path level. */
module TopologicalSort {
  import opened Wrappers
  import opened Sequences
  import opened WorkflowGraph
  import opened ReleaseOrder

  type Degrees = map<NodeId, int>

  /** The numbering covers the nodes met so far and never falls along them. */
  ghost predicate Levelled(edges: seq<Edge>, seen: seq<NodeId>, lev: map<NodeId, nat>) {
    && lev.Keys == Elements(seen)
    && (forall n :: n in lev ==> LevelsAt(edges, lev, n))
    && (forall i, j :: 0 <= i <= j < |seen| ==> lev[seen[i]] <= lev[seen[j]])
  }

  /** Nodes met so far are distinct nodes of the graph: those whose degree has dropped to zero. */
  ghost predicate Met(ids: seq<NodeId>, seen: seq<NodeId>, inDegree: Degrees) {
    && Distinct(seen)
    && inDegree.Keys == Elements(ids)
    && (forall n :: n in seen <==> n in ids && n in inDegree && inDegree[n] == 0)
  }

  ghost predicate CountsAfter(ids: seq<NodeId>, edges: seq<Edge>, done: set<NodeId>, taken: seq<NodeId>,
                              inDegree: Degrees)
  {
    inDegree.Keys == Elements(ids) &&
    forall n :: n in inDegree ==> inDegree[n] == PendingIn(edges, done, n) - multiset(taken)[n]
  }

  /** Between two rounds: degrees count the edges from nodes not yet emitted. */
  ghost predicate Round(ids: seq<NodeId>, edges: seq<Edge>, ordered: seq<NodeId>, queue: seq<NodeId>,
                        inDegree: Degrees, lev: map<NodeId, nat>)
  {
    var seen := ordered + queue;
    && Met(ids, seen, inDegree)
    && Levelled(edges, seen, lev)
    && CountsAfter(ids, edges, Elements(ordered), [], inDegree)
    && (queue != [] ==> lev[seen[|seen| - 1]] <= lev[queue[0]] + 1)
  }

  /** Within a round: the last emitted node has released `taken`, a prefix of its targets. */
  ghost predicate Sweep(ids: seq<NodeId>, edges: seq<Edge>, ordered: seq<NodeId>, queue: seq<NodeId>,
                        taken: seq<NodeId>, inDegree: Degrees, lev: map<NodeId, nat>)
  {
    && |ordered| > 0
    && Met(ids, ordered + queue, inDegree)
    && Levelled(edges, ordered + queue, lev)
    && CountsAfter(ids, edges, Elements(ordered[..|ordered| - 1]), taken, inDegree)
    && (forall n :: n in lev ==> lev[n] <= lev[ordered[|ordered| - 1]] + 1)
  }

  lemma Start(ids: seq<NodeId>, edges: seq<Edge>, queue: seq<NodeId>, inDegree: Degrees, lev: map<NodeId, nat>)
    requires Met(ids, queue, inDegree)
    requires CountsAfter(ids, edges, {}, [], inDegree)
    requires lev == map n | n in queue :: 0
    ensures Round(ids, edges, [], queue, inDegree, lev)
  {
    assert [] + queue == queue;
    assert Elements<NodeId>([]) == {};
    forall n | n in lev
      ensures LevelsAt(edges, lev, n)
    {
      PendingZero(edges, {}, n);
    }
  }

  lemma BeginSweep(ids: seq<NodeId>, edges: seq<Edge>, ordered: seq<NodeId>, queue: seq<NodeId>,
                   inDegree: Degrees, lev: map<NodeId, nat>)
    requires Round(ids, edges, ordered, queue, inDegree, lev) && queue != []
    ensures Sweep(ids, edges, ordered + [queue[0]], queue[1..], [], inDegree, lev)
  {
    var current := queue[0];
    var seen := ordered + queue;
    assert (ordered + [current]) + queue[1..] == seen;
    assert (ordered + [current])[..|ordered|] == ordered;
    forall n | n in lev
      ensures lev[n] <= lev[current] + 1
    {
      var i :| 0 <= i < |seen| && seen[i] == n;
      assert lev[seen[i]] <= lev[seen[|seen| - 1]];
    }
  }

  lemma CurrentNotBefore(ordered: seq<NodeId>, queue: seq<NodeId>)
    requires |ordered| > 0 && Distinct(ordered + queue)
    ensures ordered[|ordered| - 1] !in Elements(ordered[..|ordered| - 1])
  {
    var seen := ordered + queue;
    forall i | 0 <= i < |ordered| - 1
      ensures ordered[i] != ordered[|ordered| - 1]
    {
      assert seen[i] == ordered[i] && seen[|ordered| - 1] == ordered[|ordered| - 1];
    }
  }

  lemma SplitLast(ordered: seq<NodeId>)
    requires |ordered| > 0
    ensures Elements(ordered) == Elements(ordered[..|ordered| - 1]) + {ordered[|ordered| - 1]}
  {
    assert ordered == ordered[..|ordered| - 1] + [ordered[|ordered| - 1]];
  }

  lemma EndSweep(ids: seq<NodeId>, edges: seq<Edge>, ordered: seq<NodeId>, queue: seq<NodeId>,
                 inDegree: Degrees, lev: map<NodeId, nat>)
    requires |ordered| > 0
    requires Sweep(ids, edges, ordered, queue, Targets(edges, ordered[|ordered| - 1]), inDegree, lev)
    ensures Round(ids, edges, ordered, queue, inDegree, lev)
  {
    var current := ordered[|ordered| - 1];
    var before := ordered[..|ordered| - 1];
    var seen := ordered + queue;
    SplitLast(ordered);
    CurrentNotBefore(ordered, queue);
    forall n | n in inDegree
      ensures inDegree[n] == PendingIn(edges, Elements(ordered), n)
    {
      FinishOne(edges, Elements(before), current, n);
    }
    if queue != [] {
      assert seen[|ordered| - 1] == current && seen[|ordered|] == queue[0];
      assert lev[seen[|ordered| - 1]] <= lev[seen[|ordered|]];
      assert seen[|seen| - 1] in lev;
    }
  }

  lemma TakenTarget(ts: seq<NodeId>, j: nat)
    requires j < |ts|
    ensures multiset(ts)[ts[j]] >= multiset(ts[..j])[ts[j]] + 1
  {
    assert ts == (ts[..j] + [ts[j]]) + ts[j + 1..];
  }

  /** The degree of a target about to be released is still positive. */
  lemma ReleasePositive(edges: seq<Edge>, before: set<NodeId>, current: NodeId, ts: seq<NodeId>, j: nat, degree: int)
    requires current !in before && ts == Targets(edges, current) && j < |ts|
    requires degree == PendingIn(edges, before, ts[j]) - multiset(ts[..j])[ts[j]]
    ensures degree >= 1 + PendingIn(edges, before + {current}, ts[j])
  {
    FinishOne(edges, before, current, ts[j]);
    TakenTarget(ts, j);
  }

  lemma TakeOne(ids: seq<NodeId>, edges: seq<Edge>, done: set<NodeId>, ts: seq<NodeId>, j: nat, inDegree: Degrees)
    requires j < |ts| && ts[j] in inDegree
    requires CountsAfter(ids, edges, done, ts[..j], inDegree)
    ensures CountsAfter(ids, edges, done, ts[..j + 1], inDegree[ts[j] := inDegree[ts[j]] - 1])
  {
    assert ts[..j + 1] == ts[..j] + [ts[j]];
    assert inDegree[ts[j] := inDegree[ts[j]] - 1].Keys == inDegree.Keys;
  }

  lemma KeepLevel(edges: seq<Edge>, lev: map<NodeId, nat>, t: NodeId, k: nat, n: NodeId)
    requires t !in lev && n in lev && LevelsAt(edges, lev, n)
    ensures LevelsAt(edges, lev[t := k], n)
  {
    if lev[n] > 0 {
      var e :| e in edges && e.target == n && e.source in lev && lev[e.source] + 1 == lev[n];
      assert lev[t := k][e.source] == lev[e.source];
    }
  }

  /** A node all of whose predecessors are emitted goes one level above the current node. */
  lemma NewLevel(edges: seq<Edge>, ordered: seq<NodeId>, queue: seq<NodeId>, t: NodeId, lev: map<NodeId, nat>)
    requires |ordered| > 0 && Levelled(edges, ordered + queue, lev)
    requires t !in lev
    requires Edge(ordered[|ordered| - 1], t) in edges
    requires forall e :: e in edges && e.target == t ==> e.source in ordered
    requires forall n :: n in lev ==> lev[n] <= lev[ordered[|ordered| - 1]] + 1
    ensures ordered[|ordered| - 1] in lev
    ensures Levelled(edges, ordered + (queue + [t]), lev[t := lev[ordered[|ordered| - 1]] + 1])
  {
    var seen := ordered + queue;
    var current := ordered[|ordered| - 1];
    assert seen[|ordered| - 1] == current;
    var lev' := lev[t := lev[current] + 1];
    var seen' := ordered + (queue + [t]);
    assert seen' == seen + [t];
    assert lev'.Keys == Elements(seen') by {
      assert lev'.Keys == lev.Keys + {t};
    }
    forall e | e in edges && e.target == t
      ensures e.source in lev' && lev'[e.source] < lev'[t]
    {
      var i :| 0 <= i < |ordered| && ordered[i] == e.source;
      assert seen[i] == e.source;
    }
    assert LevelsAt(edges, lev', t) by {
      var e := Edge(current, t);
      assert e in edges && lev'[e.source] + 1 == lev'[t];
    }
    forall n | n in lev' && n != t
      ensures LevelsAt(edges, lev', n)
    {
      KeepLevel(edges, lev, t, lev[current] + 1, n);
    }
  }

  /** An edge from a node at a level to one at a higher level points forward in the order. */
  lemma LevelledIsTopological(ids: seq<NodeId>, edges: seq<Edge>, ordered: seq<NodeId>, lev: map<NodeId, nat>)
    requires Levelled(edges, ordered, lev) && Distinct(ordered)
    requires forall n :: n in ordered <==> n in ids
    ensures IsTopologicalOrder(ids, edges, ordered)
  {
    forall i, j | 0 <= i < |ordered| && 0 <= j < |ordered| && Edge(ordered[i], ordered[j]) in edges
      ensures i < j
    {
      var e := Edge(ordered[i], ordered[j]);
      assert ordered[j] in Elements(ordered) && LevelsAt(edges, lev, ordered[j]);
      assert lev[ordered[i]] < lev[ordered[j]];
    }
  }

  /** Emission is by nondecreasing longest-path level. */
  ghost predicate OrderedByLevel(edges: seq<Edge>, order: seq<NodeId>) {
    && (forall n :: n in order ==> exists k: nat :: IsLevel(edges, n, k))
    && (forall i, j, k: nat, l: nat ::
          0 <= i < j < |order| && IsLevel(edges, order[i], k) && IsLevel(edges, order[j], l) ==> k <= l)
  }

  lemma LevelledIsOrderedByLevel(edges: seq<Edge>, ordered: seq<NodeId>, lev: map<NodeId, nat>)
    requires Levelled(edges, ordered, lev)
    ensures OrderedByLevel(edges, ordered)
  {
    forall n | n in ordered
      ensures n in lev && IsLevel(edges, n, lev[n])
    {
      assert n in Elements(ordered);
      LevelsAreLongestPaths(edges, lev, n);
    }
    forall i, j, k: nat, l: nat
      | 0 <= i < j < |ordered| && IsLevel(edges, ordered[i], k) && IsLevel(edges, ordered[j], l)
      ensures k <= l
    {
      assert ordered[i] in Elements(ordered) && ordered[j] in Elements(ordered);
      LevelUnique(edges, ordered[i], k, lev[ordered[i]]);
      LevelUnique(edges, ordered[j], l, lev[ordered[j]]);
    }
  }

  lemma LeftOver(ids: seq<NodeId>, ordered: seq<NodeId>)
    requires Distinct(ids) && Distinct(ordered)
    requires Elements(ordered) <= Elements(ids)
    requires |ordered| != |ids|
    ensures Elements(ids) - Elements(ordered) != {}
  {
    DistinctCardinality(ids);
    DistinctCardinality(ordered);
    assert Elements(ordered) + (Elements(ids) - Elements(ordered)) == Elements(ids);
  }

  /** A node left over waits for another node left over. */
  lemma LeftOverWaits(ids: seq<NodeId>, edges: seq<Edge>, ordered: seq<NodeId>, inDegree: Degrees, n: NodeId)
    requires EndpointsKnown(ids, edges)
    requires Met(ids, ordered, inDegree) && CountsAfter(ids, edges, Elements(ordered), [], inDegree)
    requires n in Elements(ids) - Elements(ordered)
    ensures HasPredecessorIn(edges, n, Elements(ids) - Elements(ordered))
  {
    PendingZero(edges, Elements(ordered), n);
    var e :| e in edges && e.target == n && e.source !in Elements(ordered);
    assert e.source in ids;
  }

  /** When the queue runs dry early, the nodes left over all wait for each other. */
  lemma DryQueueMeansCycle(ids: seq<NodeId>, edges: seq<Edge>, ordered: seq<NodeId>, inDegree: Degrees,
                           lev: map<NodeId, nat>)
    requires Distinct(ids) && EndpointsKnown(ids, edges)
    requires Round(ids, edges, ordered, [], inDegree, lev)
    requires |ordered| != |ids|
    ensures HasCycle(edges)
  {
    assert ordered + [] == ordered;
    LeftOver(ids, ordered);
    forall n | n in Elements(ids) - Elements(ordered)
      ensures HasPredecessorIn(edges, n, Elements(ids) - Elements(ordered))
    {
      LeftOverWaits(ids, edges, ordered, inDegree, n);
    }
    StuckMeansCycle(edges, Elements(ids) - Elements(ordered));
  }

  lemma FullOrder(ids: seq<NodeId>, edges: seq<Edge>, ordered: seq<NodeId>, inDegree: Degrees, lev: map<NodeId, nat>)
    requires Distinct(ids) && EndpointsKnown(ids, edges)
    requires Round(ids, edges, ordered, [], inDegree, lev)
    requires |ordered| == |ids|
    ensures IsTopologicalOrder(ids, edges, ordered) && OrderedByLevel(edges, ordered) && !HasCycle(edges)
  {
    assert ordered + [] == ordered;
    DistinctPermutation(ordered, ids);
    forall n ensures n in ordered <==> n in ids {
      assert n in Elements(ordered) <==> n in Elements(ids);
    }
    LevelledIsTopological(ids, edges, ordered, lev);
    LevelledIsOrderedByLevel(edges, ordered, lev);
    LevelsExcludeCycles(ids, edges, lev);
  }

  lemma MetAfterRelease(ids: seq<NodeId>, seen: seq<NodeId>, t: NodeId, inDegree: Degrees)
    requires Met(ids, seen, inDegree) && t in inDegree && inDegree[t] > 0
    ensures inDegree[t] > 1 ==> Met(ids, seen, inDegree[t := inDegree[t] - 1])
    ensures inDegree[t] == 1 ==> Met(ids, seen + [t], inDegree[t := 0])
  {
    assert t in Elements(ids);
    assert t !in seen;
    assert inDegree[t := inDegree[t] - 1].Keys == inDegree.Keys;
  }

  /** A target whose degree drops to zero joins the queue, one level above the current node. */
  lemma QueueTarget(ids: seq<NodeId>, edges: seq<Edge>, ordered: seq<NodeId>, queue: seq<NodeId>,
                    taken: seq<NodeId>, taken': seq<NodeId>, t: NodeId, inDegree: Degrees, lev: map<NodeId, nat>)
    requires Sweep(ids, edges, ordered, queue, taken, inDegree, lev)
    requires t in inDegree && inDegree[t] == 1
    requires Edge(ordered[|ordered| - 1], t) in edges
    requires PendingIn(edges, Elements(ordered), t) == 0
    requires CountsAfter(ids, edges, Elements(ordered[..|ordered| - 1]), taken', inDegree[t := 0])
    ensures ordered[|ordered| - 1] in lev
    ensures Sweep(ids, edges, ordered, queue + [t], taken', inDegree[t := 0], lev[t := lev[ordered[|ordered| - 1]] + 1])
  {
    PendingZero(edges, Elements(ordered), t);
    MetAfterRelease(ids, ordered + queue, t, inDegree);
    NewLevel(edges, ordered, queue, t, lev);
    assert ordered + (queue + [t]) == (ordered + queue) + [t];
  }

  lemma ReleaseStep(ids: seq<NodeId>, edges: seq<Edge>, ordered: seq<NodeId>, queue: seq<NodeId>,
                    ts: seq<NodeId>, j: nat, inDegree: Degrees, lev: map<NodeId, nat>)
    requires |ordered| > 0 && ts == Targets(edges, ordered[|ordered| - 1]) && j < |ts|
    requires EndpointsKnown(ids, edges)
    requires Sweep(ids, edges, ordered, queue, ts[..j], inDegree, lev)
    ensures ts[j] in inDegree && inDegree[ts[j]] > 0 && ordered[|ordered| - 1] in lev
    ensures inDegree[ts[j]] > 1 ==>
              Sweep(ids, edges, ordered, queue, ts[..j + 1], inDegree[ts[j] := inDegree[ts[j]] - 1], lev)
    ensures inDegree[ts[j]] == 1 ==>
              Sweep(ids, edges, ordered, queue + [ts[j]], ts[..j + 1], inDegree[ts[j] := 0],
                    lev[ts[j] := lev[ordered[|ordered| - 1]] + 1])
  {
    var t, current := ts[j], ordered[|ordered| - 1];
    TargetsAreEdges(edges, current, t);
    assert t in Elements(ids);
    SplitLast(ordered);
    CurrentNotBefore(ordered, queue);
    ReleasePositive(edges, Elements(ordered[..|ordered| - 1]), current, ts, j, inDegree[t]);
    TakeOne(ids, edges, Elements(ordered[..|ordered| - 1]), ts, j, inDegree);
    if inDegree[t] == 1 {
      QueueTarget(ids, edges, ordered, queue, ts[..j], ts[..j + 1], t, inDegree, lev);
    } else {
      MetAfterRelease(ids, ordered + queue, t, inDegree);
      assert current in Elements(ordered + queue);
    }
  }

  // ---- The order of the queue ----

  /** The nodes met so far come in the order of their turns. */
  ghost predicate Queued(ids: seq<NodeId>, edges: seq<Edge>, ordered: seq<NodeId>, queue: seq<NodeId>,
                         turns: seq<Turn>)
  {
    TurnsAre(ids, edges, ordered, ordered + queue, turns) && InTurn(turns)
  }

  /** The turn of the j-th target of the node just emitted is later than all turns so far. */
  ghost predicate NextTurn(edges: seq<Edge>, ordered: seq<NodeId>, turns: seq<Turn>, j: nat)
    requires |ordered| > 0
  {
    var at := Outgoing(edges, ordered[|ordered| - 1]);
    j < |at| ==> forall i :: 0 <= i < |turns| ==> Earlier(turns[i], Turn(|ordered| - 1, at[j]))
  }

  /** The queue holds some of the ids, in their order: those at the given places. */
  ghost predicate Picks(ids: seq<NodeId>, queue: seq<NodeId>, at: seq<nat>) {
    && |at| == |queue|
    && (forall k :: 0 <= k < |at| ==> at[k] < |ids| && ids[at[k]] == queue[k])
    && (forall i, j :: 0 <= i < j < |at| ==> at[i] < at[j])
  }

  lemma InitialTurn(ids: seq<NodeId>, edges: seq<Edge>, n: NodeId, at: nat)
    requires PendingIn(edges, {}, n) == 0 && at < |ids| && ids[at] == n
    ensures TurnOf(ids, edges, [], n, Turn(-1, at))
  {
    PendingZero(edges, {}, n);
  }

  lemma InitiallyFree(ids: seq<NodeId>, edges: seq<Edge>, queue: seq<NodeId>, inDegree: Degrees)
    requires Met(ids, queue, inDegree) && CountsAfter(ids, edges, {}, [], inDegree)
    ensures forall k :: 0 <= k < |queue| ==> PendingIn(edges, {}, queue[k]) == 0
  {
    forall k | 0 <= k < |queue|
      ensures PendingIn(edges, {}, queue[k]) == 0
    {
      assert queue[k] in queue;
    }
  }

  lemma StartQueued(ids: seq<NodeId>, edges: seq<Edge>, queue: seq<NodeId>, at: seq<nat>, turns: seq<Turn>)
    requires forall k :: 0 <= k < |queue| ==> PendingIn(edges, {}, queue[k]) == 0
    requires Picks(ids, queue, at)
    requires |turns| == |at| && forall k :: 0 <= k < |at| ==> turns[k] == Turn(-1, at[k])
    ensures Queued(ids, edges, [], queue, turns)
  {
    assert [] + queue == queue;
    forall k | 0 <= k < |queue|
      ensures TurnOf(ids, edges, [], queue[k], turns[k])
    {
      InitialTurn(ids, edges, queue[k], at[k]);
    }
  }

  lemma EmitQueued(ids: seq<NodeId>, edges: seq<Edge>, ordered: seq<NodeId>, queue: seq<NodeId>, turns: seq<Turn>)
    requires Queued(ids, edges, ordered, queue, turns) && queue != []
    ensures Queued(ids, edges, ordered + [queue[0]], queue[1..], turns)
    ensures NextTurn(edges, ordered + [queue[0]], turns, 0)
  {
    var later := ordered + [queue[0]];
    assert later + queue[1..] == ordered + queue;
    forall k | 0 <= k < |turns|
      ensures TurnOf(ids, edges, later, (ordered + queue)[k], turns[k])
    {
      forall e | e in edges && e.target == (ordered + queue)[k]
        ensures exists i :: 0 <= i <= turns[k].after && i < |later| && later[i] == e.source
      {
        var i :| 0 <= i <= turns[k].after && i < |ordered| && ordered[i] == e.source;
        assert later[i] == e.source;
      }
    }
  }

  /** A node whose degree drops to zero has been reached by the last edge from its last predecessor. */
  lemma LastRelease(ids: seq<NodeId>, edges: seq<Edge>, ordered: seq<NodeId>, j: nat, inDegree: Degrees)
    requires |ordered| > 0 && ordered[|ordered| - 1] !in Elements(ordered[..|ordered| - 1])
    requires j < |Targets(edges, ordered[|ordered| - 1])|
    requires var ts := Targets(edges, ordered[|ordered| - 1]);
             && CountsAfter(ids, edges, Elements(ordered[..|ordered| - 1]), ts[..j], inDegree)
             && ts[j] in inDegree && inDegree[ts[j]] == 1
    ensures var ts := Targets(edges, ordered[|ordered| - 1]);
            ts[j] !in ts[j + 1..] && PendingIn(edges, Elements(ordered), ts[j]) == 0
  {
    var current := ordered[|ordered| - 1];
    var ts := Targets(edges, current);
    SplitLast(ordered);
    FinishOne(edges, Elements(ordered[..|ordered| - 1]), current, ts[j]);
    assert ts == (ts[..j] + [ts[j]]) + ts[j + 1..];
  }

  lemma ReleaseQueued(ids: seq<NodeId>, edges: seq<Edge>, ordered: seq<NodeId>, queue: seq<NodeId>, turns: seq<Turn>,
                      j: nat)
    requires |ordered| > 0 && j < |Targets(edges, ordered[|ordered| - 1])|
    requires Queued(ids, edges, ordered, queue, turns) && NextTurn(edges, ordered, turns, j)
    requires var ts := Targets(edges, ordered[|ordered| - 1]);
             ts[j] !in ts[j + 1..] && PendingIn(edges, Elements(ordered), ts[j]) == 0
    ensures var current := ordered[|ordered| - 1];
            && j < |Outgoing(edges, current)|
            && Queued(ids, edges, ordered, queue + [Targets(edges, current)[j]],
                      turns + [Turn(|ordered| - 1, Outgoing(edges, current)[j])])
  {
    var current := ordered[|ordered| - 1];
    var t := Targets(edges, current)[j];
    LastTarget(edges, current, j);
    PendingZero(edges, Elements(ordered), t);
    assert ordered + (queue + [t]) == (ordered + queue) + [t];
    assert AllWithin(edges, ordered, |ordered| - 1, t);
  }

  lemma NextTurnGoesOn(edges: seq<Edge>, ordered: seq<NodeId>, turns: seq<Turn>, j: nat)
    requires |ordered| > 0 && j < |Outgoing(edges, ordered[|ordered| - 1])| && NextTurn(edges, ordered, turns, j)
    ensures NextTurn(edges, ordered, turns, j + 1)
    ensures NextTurn(edges, ordered, turns + [Turn(|ordered| - 1, Outgoing(edges, ordered[|ordered| - 1])[j])], j + 1)
  {
    TargetsInEdgeOrder(edges, ordered[|ordered| - 1]);
  }

  /** One turn of the inner loop. */
  lemma TurnStep(ids: seq<NodeId>, edges: seq<Edge>, ordered: seq<NodeId>, queue: seq<NodeId>, turns: seq<Turn>,
                 j: nat, inDegree: Degrees, lev: map<NodeId, nat>)
    requires |ordered| > 0 && j < |Targets(edges, ordered[|ordered| - 1])|
    requires Sweep(ids, edges, ordered, queue, Targets(edges, ordered[|ordered| - 1])[..j], inDegree, lev)
    requires Queued(ids, edges, ordered, queue, turns) && NextTurn(edges, ordered, turns, j)
    ensures NextTurn(edges, ordered, turns, j + 1)
    ensures var current := ordered[|ordered| - 1];
            var t := Targets(edges, current)[j];
            t in inDegree && inDegree[t] == 1 ==>
              && j < |Outgoing(edges, current)|
              && var turns' := turns + [Turn(|ordered| - 1, Outgoing(edges, current)[j])];
              && Queued(ids, edges, ordered, queue + [t], turns') && NextTurn(edges, ordered, turns', j + 1)
  {
    var current := ordered[|ordered| - 1];
    var t := Targets(edges, current)[j];
    TargetsInEdgeOrder(edges, current);
    NextTurnGoesOn(edges, ordered, turns, j);
    if t in inDegree && inDegree[t] == 1 {
      CurrentNotBefore(ordered, queue);
      LastRelease(ids, edges, ordered, j, inDegree);
      ReleaseQueued(ids, edges, ordered, queue, turns, j);
    }
  }

  /** One turn of the inner loop: give back one unit of in-degree, and queue the target if it reaches
      zero. */
  method ReleaseTarget(ids: seq<NodeId>, ghost edges: seq<Edge>, ghost ordered: seq<NodeId>, ts: seq<NodeId>, j: nat,
                       queue0: seq<NodeId>, inDegree0: Degrees, ghost lev0: map<NodeId, nat>,
                       ghost turns0: seq<Turn>)
      returns (queue: seq<NodeId>, inDegree: Degrees, ghost lev: map<NodeId, nat>, ghost turns: seq<Turn>)
    requires EndpointsKnown(ids, edges)
    requires |ordered| > 0 && ts == Targets(edges, ordered[|ordered| - 1]) && j < |ts|
    requires Sweep(ids, edges, ordered, queue0, ts[..j], inDegree0, lev0)
    requires Queued(ids, edges, ordered, queue0, turns0) && NextTurn(edges, ordered, turns0, j)
    ensures Sweep(ids, edges, ordered, queue, ts[..j + 1], inDegree, lev)
    ensures Queued(ids, edges, ordered, queue, turns) && NextTurn(edges, ordered, turns, j + 1)
  {
    queue, lev, turns := queue0, lev0, turns0;
    var target := ts[j];
    ReleaseStep(ids, edges, ordered, queue0, ts, j, inDegree0, lev0);
    TurnStep(ids, edges, ordered, queue0, turns0, j, inDegree0, lev0);
    inDegree := inDegree0[target := inDegree0[target] - 1];
    if inDegree[target] == 0 {
      lev := lev[target := lev[ordered[|ordered| - 1]] + 1];
      turns := turns + [Turn(|ordered| - 1, Outgoing(edges, ordered[|ordered| - 1])[j])];
      queue := queue + [target];
    }
  }

  /** The inner loop, over the edges of the node just emitted. */
  method ReleaseTargets(ids: seq<NodeId>, ghost edges: seq<Edge>, ghost ordered: seq<NodeId>, ts: seq<NodeId>,
                        queue0: seq<NodeId>, inDegree0: Degrees, ghost lev0: map<NodeId, nat>,
                        ghost turns0: seq<Turn>)
      returns (queue: seq<NodeId>, inDegree: Degrees, ghost lev: map<NodeId, nat>, ghost turns: seq<Turn>)
    requires EndpointsKnown(ids, edges)
    requires |ordered| > 0 && ts == Targets(edges, ordered[|ordered| - 1])
    requires Sweep(ids, edges, ordered, queue0, [], inDegree0, lev0)
    requires Queued(ids, edges, ordered, queue0, turns0) && NextTurn(edges, ordered, turns0, 0)
    ensures Met(ids, ordered + queue, inDegree)
    ensures CountsAfter(ids, edges, Elements(ordered[..|ordered| - 1]), ts, inDegree)
    ensures Sweep(ids, edges, ordered, queue, ts, inDegree, lev)
    ensures Queued(ids, edges, ordered, queue, turns)
  {
    queue, inDegree, lev, turns := queue0, inDegree0, lev0, turns0;
    for j := 0 to |ts|
      invariant Sweep(ids, edges, ordered, queue, ts[..j], inDegree, lev)
      invariant Queued(ids, edges, ordered, queue, turns) && NextTurn(edges, ordered, turns, j)
    {
      queue, inDegree, lev, turns := ReleaseTarget(ids, edges, ordered, ts, j, queue, inDegree, lev, turns);
    }
    assert ts[..|ts|] == ts;
  }

  lemma CountStep(edges: seq<Edge>, i: nat, n: NodeId)
    requires i < |edges|
    ensures PendingIn(edges[..i + 1], {}, n)
         == PendingIn(edges[..i], {}, n) + if edges[i].target == n then 1 else 0
    ensures Targets(edges[..i + 1], n)
         == Targets(edges[..i], n) + if edges[i].source == n then [edges[i].target] else []
  {
    assert edges[..i + 1][..i] == edges[..i];
  }

  ghost predicate Counted(ids: seq<NodeId>, edges: seq<Edge>, inDegree: Degrees, downstream: map<NodeId, seq<NodeId>>) {
    && inDegree.Keys == downstream.Keys == Elements(ids)
    && (forall n :: n in inDegree ==> inDegree[n] == PendingIn(edges, {}, n))
    && (forall u :: u in downstream ==> downstream[u] == Targets(edges, u))
  }

  lemma CountOne(ids: seq<NodeId>, edges: seq<Edge>, i: nat, inDegree: Degrees, downstream: map<NodeId, seq<NodeId>>)
    requires i < |edges| && Counted(ids, edges[..i], inDegree, downstream)
    requires edges[i].source in downstream && edges[i].target in inDegree
    ensures var e := edges[i];
            Counted(ids, edges[..i + 1], inDegree[e.target := inDegree[e.target] + 1],
                    downstream[e.source := downstream[e.source] + [e.target]])
  {
    var e := edges[i];
    var inDegree' := inDegree[e.target := inDegree[e.target] + 1];
    var downstream' := downstream[e.source := downstream[e.source] + [e.target]];
    assert inDegree'.Keys == inDegree.Keys && downstream'.Keys == downstream.Keys;
    forall n | n in inDegree'
      ensures inDegree'[n] == PendingIn(edges[..i + 1], {}, n)
    {
      CountStep(edges, i, n);
    }
    forall n | n in downstream'
      ensures downstream'[n] == Targets(edges[..i + 1], n)
    {
      CountStep(edges, i, n);
    }
  }

  /** The first pass over the edges. */
  method CountEdges(ids: seq<NodeId>, edges: seq<Edge>)
      returns (inDegree: Degrees, downstream: map<NodeId, seq<NodeId>>)
    requires EndpointsKnown(ids, edges)
    ensures Counted(ids, edges, inDegree, downstream)
  {
    inDegree := map n | n in ids :: 0;
    downstream := map n | n in ids :: [];
    for i := 0 to |edges|
      invariant Counted(ids, edges[..i], inDegree, downstream)
    {
      var e := edges[i];
      assert e in edges;
      CountOne(ids, edges, i, inDegree, downstream);
      downstream := downstream[e.source := downstream[e.source] + [e.target]];
      inDegree := inDegree[e.target := inDegree[e.target] + 1];
    }
    assert edges[..|edges|] == edges;
  }

  /** The nodes without incoming edges, in definition order; `at` says where in the definition they stand. */
  method InitialQueue(ids: seq<NodeId>, inDegree: Degrees) returns (queue: seq<NodeId>, ghost at: seq<nat>)
    requires Distinct(ids) && inDegree.Keys == Elements(ids)
    ensures Met(ids, queue, inDegree)
    ensures Picks(ids, queue, at)
  {
    queue, at := [], [];
    for i := 0 to |ids|
      invariant Distinct(queue)
      invariant Picks(ids, queue, at) && forall k :: 0 <= k < |at| ==> at[k] < i
      invariant forall n :: n in queue <==> n in ids[..i] && n in inDegree && inDegree[n] == 0
    {
      assert ids[..i + 1] == ids[..i] + [ids[i]];
      assert ids[i] !in ids[..i];
      assert ids[i] in Elements(ids);
      if inDegree[ids[i]] == 0 {
        queue, at := queue + [ids[i]], at + [i];
      }
    }
    assert ids[..|ids|] == ids;
  }

  lemma OrderedFits(ids: seq<NodeId>, ordered: seq<NodeId>, queue: seq<NodeId>, inDegree: Degrees)
    requires Met(ids, ordered + queue, inDegree) && queue != [] && Distinct(ids)
    ensures |ordered| < |ids| && queue[0] in ids
  {
    var seen := ordered + queue;
    DistinctCardinality(seen);
    DistinctCardinality(ids);
    assert Elements(seen) <= Elements(ids);
    SubsetCardinality(Elements(seen), Elements(ids));
    assert seen[|ordered|] == queue[0];
  }

  lemma FirstRound(ids: seq<NodeId>, edges: seq<Edge>, queue: seq<NodeId>, at: seq<nat>, inDegree: Degrees,
                   lev: map<NodeId, nat>, turns: seq<Turn>)
    requires Met(ids, queue, inDegree) && CountsAfter(ids, edges, {}, [], inDegree)
    requires lev == map n | n in queue :: 0
    requires Picks(ids, queue, at)
    requires |turns| == |at| && forall k :: 0 <= k < |at| ==> turns[k] == Turn(-1, at[k])
    ensures Round(ids, edges, [], queue, inDegree, lev) && Queued(ids, edges, [], queue, turns)
  {
    Start(ids, edges, queue, inDegree, lev);
    InitiallyFree(ids, edges, queue, inDegree);
    StartQueued(ids, edges, queue, at, turns);
  }

  /** One turn of the outer loop: emit the first node of the queue and release its targets. */
  method EmitNext(ids: seq<NodeId>, ghost edges: seq<Edge>, ordered0: seq<NodeId>, queue0: seq<NodeId>,
                  downstream: map<NodeId, seq<NodeId>>, inDegree0: Degrees, ghost lev0: map<NodeId, nat>,
                  ghost turns0: seq<Turn>)
      returns (ordered: seq<NodeId>, queue: seq<NodeId>, inDegree: Degrees, ghost lev: map<NodeId, nat>,
               ghost turns: seq<Turn>)
    requires Distinct(ids) && EndpointsKnown(ids, edges) && queue0 != []
    requires downstream.Keys == Elements(ids) && forall u :: u in downstream ==> downstream[u] == Targets(edges, u)
    requires Round(ids, edges, ordered0, queue0, inDegree0, lev0) && Queued(ids, edges, ordered0, queue0, turns0)
    ensures ordered == ordered0 + [queue0[0]] && |ordered| <= |ids|
    ensures Round(ids, edges, ordered, queue, inDegree, lev) && Queued(ids, edges, ordered, queue, turns)
  {
    BeginSweep(ids, edges, ordered0, queue0, inDegree0, lev0);
    EmitQueued(ids, edges, ordered0, queue0, turns0);
    OrderedFits(ids, ordered0, queue0, inDegree0);
    var current := queue0[0];
    ordered := ordered0 + [current];
    queue, inDegree, lev, turns :=
      ReleaseTargets(ids, edges, ordered, downstream[current], queue0[1..], inDegree0, lev0, turns0);
    EndSweep(ids, edges, ordered, queue, inDegree, lev);
  }

  lemma AllEmitted(ids: seq<NodeId>, edges: seq<Edge>, ordered: seq<NodeId>, turns: seq<Turn>)
    requires Queued(ids, edges, ordered, [], turns)
    ensures FirstInFirstOut(ids, edges, ordered)
  {
    assert ordered + [] == ordered;
  }

  /** Returns the order, or `None` where the source raises for a cycle. */
  method Sort(ids: seq<NodeId>, edges: seq<Edge>) returns (result: Option<seq<NodeId>>)
    requires Distinct(ids) && EndpointsKnown(ids, edges)
    ensures result.None? <==> HasCycle(edges)
    ensures result.Some? ==> IsTopologicalOrder(ids, edges, result.value) && OrderedByLevel(edges, result.value)
    ensures result.Some? ==> FirstInFirstOut(ids, edges, result.value)
  {
    var inDegree, downstream := CountEdges(ids, edges);
    var queue, at := InitialQueue(ids, inDegree);
    var ordered: seq<NodeId> := [];
    ghost var lev: map<NodeId, nat> := map n | n in queue :: 0;
    ghost var turns: seq<Turn> := seq(|at|, k requires 0 <= k < |at| => Turn(-1, at[k]));
    FirstRound(ids, edges, queue, at, inDegree, lev, turns);

    while queue != []
      invariant Round(ids, edges, ordered, queue, inDegree, lev)
      invariant Queued(ids, edges, ordered, queue, turns)
      decreases |ids| - |ordered|
    {
      ordered, queue, inDegree, lev, turns :=
        EmitNext(ids, edges, ordered, queue, downstream, inDegree, lev, turns);
    }

    if |ordered| != |ids| {
      DryQueueMeansCycle(ids, edges, ordered, inDegree, lev);
      return None;
    }
    FullOrder(ids, edges, ordered, inDegree, lev);
    AllEmitted(ids, edges, ordered, turns);
    return Some(ordered);
  }
}
