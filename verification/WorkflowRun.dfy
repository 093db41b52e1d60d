/** Execution of a workflow run: nodes in topological order, the first failure skips the rest. */
module WorkflowRun {
  import opened Wrappers
  import opened Sequences
  import opened WorkflowGraph
  import opened ReleaseOrder
  import opened WorkflowDefinition
  import JobExecutor
  import TopologicalSort

  datatype NodeStatus = PENDING | RUNNING | COMPLETED | FAILED | SKIPPED

  datatype RunStatus = RunPending | RunRunning | RunCompleted | RunFailed

  datatype RunError = NoError | CycleError | NodesFailed | Crashed

  datatype Event = NodeEvent(id: NodeId, status: NodeStatus) | RunEvent(run: RunStatus)

  // ---- What a run amounts to, in terms of the meaning of its nodes ----

  ghost predicate Runnable(def: Definition, order: seq<NodeId>) {
    Shaped(def) && !HasCycle(def.edges) && IsTopologicalOrder(Ids(def), def.edges, order)
  }

  /** Some node before position k has no meaning. */
  ghost predicate BrokenBefore(def: Definition, w: World, order: seq<NodeId>, k: nat)
    requires Runnable(def, order) && k <= |order|
  {
    exists j :: 0 <= j < k && Meaning(def, w, order[j]).None?
  }

  ghost function EndStatus(def: Definition, w: World, order: seq<NodeId>, k: nat): NodeStatus
    requires Runnable(def, order) && k < |order|
  {
    if BrokenBefore(def, w, order, k) then SKIPPED
    else if Meaning(def, w, order[k]).None? then FAILED
    else COMPLETED
  }

  ghost function NodeEvents(def: Definition, w: World, order: seq<NodeId>, k: nat): seq<Event>
    requires Runnable(def, order) && k < |order|
  {
    var end := EndStatus(def, w, order, k);
    if end == SKIPPED then [NodeEvent(order[k], SKIPPED)]
    else [NodeEvent(order[k], RUNNING), NodeEvent(order[k], end)]
  }

  ghost function EventsUpTo(def: Definition, w: World, order: seq<NodeId>, k: nat): seq<Event>
    requires Runnable(def, order) && k <= |order|
  {
    if k == 0 then [] else EventsUpTo(def, w, order, k - 1) + NodeEvents(def, w, order, k - 1)
  }

  /** Node n is among the first k and ends COMPLETED. */
  ghost predicate CompletedBy(def: Definition, w: World, order: seq<NodeId>, k: nat, n: NodeId)
    requires Runnable(def, order) && k <= |order|
  {
    exists j :: 0 <= j < k && order[j] == n && EndStatus(def, w, order, j) == COMPLETED
  }

  /** Of the first k nodes, those that end COMPLETED are held with their meanings. */
  ghost predicate MeaningsHeld(def: Definition, w: World, order: seq<NodeId>, k: nat, outputs: map<NodeId, Dataset>)
    requires Runnable(def, order) && k <= |order|
  {
    forall j :: 0 <= j < k && EndStatus(def, w, order, j) == COMPLETED ==>
      order[j] in outputs && Meaning(def, w, order[j]) == Some(outputs[order[j]])
  }

  /** The outputs held after the first k nodes: the meanings of those that completed. */
  ghost predicate OutputsAre(def: Definition, w: World, order: seq<NodeId>, k: nat, outputs: map<NodeId, Dataset>)
    requires Runnable(def, order) && k <= |order|
  {
    && (forall n :: n in outputs ==> CompletedBy(def, w, order, k, n))
    && MeaningsHeld(def, w, order, k, outputs)
  }

  ghost predicate StatusesAre(def: Definition, w: World, order: seq<NodeId>, k: nat,
                              before: map<NodeId, NodeStatus>, status: map<NodeId, NodeStatus>)
    requires Runnable(def, order) && k <= |order|
  {
    && (forall j :: 0 <= j < k ==> order[j] in status && status[order[j]] == EndStatus(def, w, order, j))
    && (forall n :: n !in order[..k] ==> (n in status <==> n in before) && (n in before ==> status[n] == before[n]))
  }

  /** Rows of nodes that completed hold the node's meaning; all other rows keep what they held. */
  ghost predicate OutputsWritten(def: Definition, w: World, order: seq<NodeId>, k: nat,
                                 before: map<NodeId, Dataset>, output: map<NodeId, Dataset>)
    requires Runnable(def, order) && k <= |order|
  {
    && MeaningsHeld(def, w, order, k, output)
    && (forall n :: !CompletedBy(def, w, order, k, n) ==>
          (n in output <==> n in before) && (n in before ==> output[n] == before[n]))
  }

  /** COMPLETED up to some point, then at most one FAILED, then only SKIPPED. */
  lemma {:induction false} StatusShape(def: Definition, w: World, order: seq<NodeId>, k: nat) returns (f: nat)
    requires Runnable(def, order) && k <= |order|
    ensures f <= k
    ensures forall j :: 0 <= j < k ==>
              EndStatus(def, w, order, j) == if j < f then COMPLETED else if j == f then FAILED else SKIPPED
    ensures BrokenBefore(def, w, order, k) <==> f < k
  {
    if k == 0 {
      f := 0;
    } else {
      f := StatusShape(def, w, order, k - 1);
      if f == k - 1 && Meaning(def, w, order[k - 1]).Some? {
        f := k;
      }
    }
  }

  /** Node f is the first without a meaning, or f is k. */
  ghost predicate FirstBroken(def: Definition, w: World, order: seq<NodeId>, k: nat, f: nat)
    requires Runnable(def, order) && k <= |order|
  {
    && f <= k && (forall j :: 0 <= j < f ==> Meaning(def, w, order[j]).Some?)
    && (f < k ==> Meaning(def, w, order[f]).None?)
  }

  /** Nodes up to the first without a meaning report RUNNING and then COMPLETED, that node RUNNING and then
      FAILED, and all nodes after it SKIPPED alone; and they report in turn. */
  ghost predicate LogShape(order: seq<NodeId>, k: nat, f: nat, log: seq<Event>)
    requires f <= k <= |order|
  {
    && |log| == (if f < k then k + f + 1 else 2 * k)
    && (forall j :: 0 <= j < f ==>
          log[2 * j] == NodeEvent(order[j], RUNNING) && log[2 * j + 1] == NodeEvent(order[j], COMPLETED))
    && (f < k ==> log[2 * f] == NodeEvent(order[f], RUNNING) && log[2 * f + 1] == NodeEvent(order[f], FAILED))
    && (forall j :: f < j < k ==> log[f + 1 + j] == NodeEvent(order[j], SKIPPED))
  }

  /** The events of one node, if f is the first without a meaning. */
  ghost function Told(n: NodeId, k: int, f: int): seq<Event> {
    if k < f then [NodeEvent(n, RUNNING), NodeEvent(n, COMPLETED)]
    else if k == f then [NodeEvent(n, RUNNING), NodeEvent(n, FAILED)]
    else [NodeEvent(n, SKIPPED)]
  }

  lemma LogGoesOn(order: seq<NodeId>, k: nat, f: nat, before: nat, log: seq<Event>, log': seq<Event>)
    requires 0 < k <= |order| && f <= k && before == if f < k then f else k - 1
    requires LogShape(order, k - 1, before, log) && log' == log + Told(order[k - 1], k - 1, f)
    ensures LogShape(order, k, f, log')
  {
  }

  lemma EventsOfNode(def: Definition, w: World, order: seq<NodeId>, k: nat, f: nat)
    requires Runnable(def, order) && 0 < k <= |order| && FirstBroken(def, w, order, k, f)
    ensures EventsUpTo(def, w, order, k) == EventsUpTo(def, w, order, k - 1) + Told(order[k - 1], k - 1, f)
    ensures FirstBroken(def, w, order, k - 1, if f < k then f else k - 1)
  {
  }

  lemma {:induction false} EventsShape(def: Definition, w: World, order: seq<NodeId>, k: nat, f: nat)
    requires Runnable(def, order) && k <= |order| && FirstBroken(def, w, order, k, f)
    ensures LogShape(order, k, f, EventsUpTo(def, w, order, k))
  {
    if k > 0 {
      var before := if f < k then f else k - 1;
      EventsOfNode(def, w, order, k, f);
      EventsShape(def, w, order, k - 1, before);
      LogGoesOn(order, k, f, before, EventsUpTo(def, w, order, k - 1), EventsUpTo(def, w, order, k));
    }
  }

  lemma SameBreakage(def: Definition, w: World, a: seq<NodeId>, b: seq<NodeId>)
    requires Runnable(def, a) && Runnable(def, b)
    ensures BrokenBefore(def, w, a, |a|) ==> BrokenBefore(def, w, b, |b|)
  {
    if BrokenBefore(def, w, a, |a|) {
      var j :| 0 <= j < |a| && Meaning(def, w, a[j]).None?;
      assert a[j] in b;
    }
  }

  /** After an unbroken run the row of every node holds the node's meaning, and no other row changed. */
  lemma CompletedRow(def: Definition, w: World, order: seq<NodeId>, before: map<NodeId, Dataset>,
                     output: map<NodeId, Dataset>, n: NodeId)
    requires Runnable(def, order) && OutputsWritten(def, w, order, |order|, before, output)
    requires !BrokenBefore(def, w, order, |order|)
    ensures n in Ids(def) ==> n in output && Meaning(def, w, n) == Some(output[n])
    ensures n !in Ids(def) ==> (n in output <==> n in before) && (n in before ==> output[n] == before[n])
  {
    if n in Ids(def) {
      assert n in order;
      var j :| 0 <= j < |order| && order[j] == n;
      assert EndStatus(def, w, order, j) == COMPLETED;
    } else {
      assert n !in order;
    }
  }

  lemma SameRows(def: Definition, w: World, a: seq<NodeId>, b: seq<NodeId>,
                 before: map<NodeId, Dataset>, outA: map<NodeId, Dataset>, outB: map<NodeId, Dataset>)
    requires Runnable(def, a) && Runnable(def, b)
    requires OutputsWritten(def, w, a, |a|, before, outA) && OutputsWritten(def, w, b, |b|, before, outB)
    requires !BrokenBefore(def, w, a, |a|) && !BrokenBefore(def, w, b, |b|)
    ensures outA == outB
  {
    forall n
      ensures n in outA <==> n in outB
      ensures n in outA ==> outA[n] == outB[n]
    {
      CompletedRow(def, w, a, before, outA, n);
      CompletedRow(def, w, b, before, outB, n);
    }
  }

  /** Whether a run completes, and what a completed run leaves on its node rows, is the same for any
      topological order. */
  lemma OrderDoesNotMatter(def: Definition, w: World, a: seq<NodeId>, b: seq<NodeId>,
                           before: map<NodeId, Dataset>, outA: map<NodeId, Dataset>, outB: map<NodeId, Dataset>)
    requires Runnable(def, a) && Runnable(def, b)
    requires OutputsWritten(def, w, a, |a|, before, outA) && OutputsWritten(def, w, b, |b|, before, outB)
    ensures BrokenBefore(def, w, a, |a|) == BrokenBefore(def, w, b, |b|)
    ensures !BrokenBefore(def, w, a, |a|) ==> outA == outB
  {
    SameBreakage(def, w, a, b);
    SameBreakage(def, w, b, a);
    if !BrokenBefore(def, w, a, |a|) {
      SameRows(def, w, a, b, before, outA, outB);
    }
  }

  // ---- Ids the database cannot hold ----

  /** The length of the `node_id` column. Validation accepts ids of any length. */
  const MAX_NODE_ID := 100

  predicate IdFits(id: NodeId) {
    |id| <= MAX_NODE_ID
  }

  /** The loop gets to position k: the first id that does not fit, or the end of the order. */
  ghost predicate StopsAt(order: seq<NodeId>, k: nat) {
    && k <= |order| && (forall j :: 0 <= j < k ==> IdFits(order[j]))
    && (k < |order| ==> !IdFits(order[k]))
  }

  function Stop(order: seq<NodeId>): (k: nat)
    ensures StopsAt(order, k)
  {
    if order == [] || !IdFits(order[0]) then 0 else 1 + Stop(order[1..])
  }

  ghost predicate AllFit(def: Definition) {
    forall n :: n in Ids(def) ==> IdFits(n)
  }

  lemma StopIsEndIff(def: Definition, order: seq<NodeId>)
    requires Runnable(def, order)
    ensures Stop(order) == |order| <==> AllFit(def)
  {
    if Stop(order) == |order| {
      forall n | n in Ids(def) ensures IdFits(n) {
        assert n in order;
      }
    } else {
      assert order[Stop(order)] in order;
    }
  }

  /** The run ends COMPLETED: all rows can be written and every node has a meaning. */
  ghost predicate Completes(def: Definition, w: World, order: seq<NodeId>)
    requires Runnable(def, order)
  {
    AllFit(def) && !BrokenBefore(def, w, order, |order|)
  }

  // ---- When an accepted definition completes ----

  ghost predicate Connected(def: Definition, n: NodeId)
    requires n in Ids(def)
  {
    NodeOf(def, n).kind == Source || Upstream(def.edges, n) != {}
  }

  ghost predicate NeverFails(w: World) {
    forall node, inputs :: JobOf(node, inputs, w).Some?
  }

  lemma ApplySucceeds(node: Node, upstream: set<Option<Dataset>>, w: World)
    requires NodeAcceptable(node, w) && node.kind == Operation && NeverFails(w)
    requires upstream != {} && None !in upstream
    ensures Apply(node, upstream, w).Some?
  {
  }

  lemma SomeMeanings(def: Definition, w: World, n: NodeId)
    requires Shaped(def) && !HasCycle(def.edges) && n in Ids(def)
    requires Upstream(def.edges, n) != {}
    requires forall m :: m in Upstream(def.edges, n) ==> m in Ids(def) && Meaning(def, w, m).Some?
    ensures UpstreamMeanings(def, w, n) != {} && None !in UpstreamMeanings(def, w, n)
  {
    var m :| m in Upstream(def.edges, n);
    assert Meaning(def, w, m) in UpstreamMeanings(def, w, n);
  }

  lemma {:induction false} ConnectedHasMeaning(def: Definition, w: World, n: NodeId)
    requires Acceptable(def, w) && NeverFails(w) && n in Ids(def)
    requires forall m :: m in Ids(def) ==> Connected(def, m)
    ensures Meaning(def, w, n).Some?
    decreases Ancestors(Ids(def), def.edges, n)
  {
    var node := NodeOf(def, n);
    assert NodeAcceptable(node, w) && Connected(def, n);
    if node.kind == Operation {
      UpstreamShrinks(def, n);
      forall m | m in Upstream(def.edges, n)
        ensures m in Ids(def) && Meaning(def, w, m).Some?
      {
        ConnectedHasMeaning(def, w, m);
      }
      SomeMeanings(def, w, n);
      ApplySucceeds(node, UpstreamMeanings(def, w, n), w);
    }
  }

  lemma UnbrokenIffConnected(def: Definition, w: World, order: seq<NodeId>)
    requires Acceptable(def, w) && NeverFails(w) && Runnable(def, order)
    ensures !BrokenBefore(def, w, order, |order|) <==> forall n :: n in Ids(def) ==> Connected(def, n)
  {
    if forall n :: n in Ids(def) ==> Connected(def, n) {
      forall j | 0 <= j < |order|
        ensures Meaning(def, w, order[j]).Some?
      {
        assert order[j] in order;
        ConnectedHasMeaning(def, w, order[j]);
      }
    }
    forall n | n in Ids(def) && !Connected(def, n)
      ensures BrokenBefore(def, w, order, |order|)
    {
      assert n in order;
      var j :| 0 <= j < |order| && order[j] == n;
      assert UpstreamMeanings(def, w, n) == {};
      assert Meaning(def, w, order[j]).None?;
    }
  }

  /** An accepted definition whose tools never fail completes exactly when every operation has an
      incoming edge and every id fits its column: the two things validation does not ask for. */
  lemma AcceptedCompletesIff(def: Definition, w: World, order: seq<NodeId>)
    requires Acceptable(def, w) && NeverFails(w) && Runnable(def, order)
    ensures Completes(def, w, order) <==> forall n :: n in Ids(def) ==> Connected(def, n) && IdFits(n)
  {
    UnbrokenIffConnected(def, w, order);
  }

  lemma LoneNode(node: Node, w: World)
    requires NodeAcceptable(node, w)
    ensures var def := Definition([node], []);
            && Ids(def) == [node.id] && Acceptable(def, w) && Runnable(def, [node.id])
            && NodeOf(def, node.id) == node
  {
    var def := Definition([node], []);
    assert Ids(def) == [node.id];
    assert !HasCycle(def.edges) by {
      if path :| IsCycle(def.edges, path) {
        assert Edge(path[0], path[0 + 1]) in def.edges;
      }
    }
    assert node.id in Ids(def);
  }

  /** Validation accepts a lone operation; its run always fails. */
  lemma LoneOperationCounterexample(w: World, node: Node)
    requires node.kind == Operation && NodeAcceptable(node, w)
    ensures var def := Definition([node], []);
            && Acceptable(def, w) && Runnable(def, [node.id])
            && BrokenBefore(def, w, [node.id], 1)
  {
    LoneNode(node, w);
    var def := Definition([node], []);
    assert UpstreamMeanings(def, w, node.id) == {};
    assert Meaning(def, w, [node.id][0]).None?;
  }

  /** Validation accepts a lone source with an id of more than 100 characters; its node has a meaning,
      and yet its run cannot complete: it stops before the first row is written. */
  lemma LongIdCounterexample(w: World, node: Node)
    requires node.kind == Source && NodeAcceptable(node, w) && |node.id| > MAX_NODE_ID
    ensures var def := Definition([node], []);
            && Acceptable(def, w) && Runnable(def, [node.id])
            && !BrokenBefore(def, w, [node.id], 1) && !Completes(def, w, [node.id]) && Stop([node.id]) == 0
  {
    LoneNode(node, w);
    var def := Definition([node], []);
    assert Meaning(def, w, [node.id][0]).Some?;
    assert node.id in Ids(def);
  }

  // ---- Inputs of an operation ----

  function ResolveInputs(n: NodeId, edges: seq<Edge>, outputs: map<NodeId, Dataset>): seq<Dataset> {
    if edges == [] then []
    else
      var e := edges[0];
      (if e.target == n && e.source in outputs then [outputs[e.source]] else []) + ResolveInputs(n, edges[1..], outputs)
  }

  lemma {:induction false} ResolvedInputs(n: NodeId, edges: seq<Edge>, outputs: map<NodeId, Dataset>)
    ensures forall d :: d in ResolveInputs(n, edges, outputs) <==>
                        exists e :: e in edges && e.target == n && e.source in outputs && outputs[e.source] == d
  {
    if edges != [] {
      ResolvedInputs(n, edges[1..], outputs);
      assert edges == [edges[0]] + edges[1..];
    }
  }

  lemma UpstreamAsHeld(def: Definition, w: World, n: NodeId, outputs: map<NodeId, Dataset>)
    requires Shaped(def) && !HasCycle(def.edges) && n in Ids(def)
    requires forall m :: m in Upstream(def.edges, n) ==>
               m in outputs && m in Ids(def) && Meaning(def, w, m) == Some(outputs[m])
    ensures UpstreamMeanings(def, w, n) == set m | m in Upstream(def.edges, n) :: Some(outputs[m])
  {
  }

  ghost function Wrapped(inputs: seq<Dataset>): set<Option<Dataset>> {
    set d | d in inputs :: Some(d)
  }

  lemma NothingDropped(n: NodeId, edges: seq<Edge>, outputs: map<NodeId, Dataset>)
    requires forall m :: m in Upstream(edges, n) ==> m in outputs
    ensures Wrapped(ResolveInputs(n, edges, outputs)) == set m | m in Upstream(edges, n) :: Some(outputs[m])
  {
    ResolvedInputs(n, edges, outputs);
    forall m | m in Upstream(edges, n)
      ensures outputs[m] in ResolveInputs(n, edges, outputs)
    {
      var e :| e in edges && e.target == n && e.source == m;
    }
    forall d | d in ResolveInputs(n, edges, outputs)
      ensures exists m :: m in Upstream(edges, n) && outputs[m] == d
    {
      var e :| e in edges && e.target == n && e.source in outputs && outputs[e.source] == d;
      assert e.source in Upstream(edges, n);
    }
  }

  lemma UpstreamHeld(def: Definition, w: World, order: seq<NodeId>, k: nat, outputs: map<NodeId, Dataset>, m: NodeId)
    requires Runnable(def, order) && k < |order| && !BrokenBefore(def, w, order, k)
    requires OutputsAre(def, w, order, k, outputs)
    requires m in Upstream(def.edges, order[k])
    ensures m in outputs && m in Ids(def) && Meaning(def, w, m) == Some(outputs[m])
  {
    var e :| e in def.edges && e.target == order[k] && e.source == m;
    assert e == Edge(m, order[k]);
    var j :| 0 <= j < |order| && order[j] == m;
    assert EndStatus(def, w, order, j) == COMPLETED;
  }

  /** Reaching node k unbroken, all its upstream outputs are present: the `in node_outputs` filter
      drops nothing, and the set of inputs is the set of upstream meanings. */
  lemma InputsAreUpstream(def: Definition, w: World, order: seq<NodeId>, k: nat, outputs: map<NodeId, Dataset>)
    requires Runnable(def, order) && k < |order| && !BrokenBefore(def, w, order, k)
    requires OutputsAre(def, w, order, k, outputs)
    ensures forall m :: m in Upstream(def.edges, order[k]) ==>
              m in outputs && m in Ids(def) && Meaning(def, w, m) == Some(outputs[m])
    ensures UpstreamMeanings(def, w, order[k]) == Wrapped(ResolveInputs(order[k], def.edges, outputs))
  {
    var n := order[k];
    UpstreamShrinks(def, n);
    forall m | m in Upstream(def.edges, n)
      ensures m in outputs && Meaning(def, w, m) == Some(outputs[m])
    {
      UpstreamHeld(def, w, order, k, outputs, m);
    }
    NothingDropped(n, def.edges, outputs);
    UpstreamAsHeld(def, w, n, outputs);
  }

  lemma ApplyWrapped(node: Node, inputs: seq<Dataset>, w: World)
    ensures Apply(node, Wrapped(inputs), w) ==
            if inputs == [] || node.toolName !in w.tools || !w.paramsValid(node.toolName, node.params) then None
            else JobOf(node, Elements(inputs), w)
  {
    forall d
      ensures d in Elements(inputs) <==> d in Present(Wrapped(inputs))
    {
      if d in inputs {
        assert Some(d) in Wrapped(inputs);
      }
    }
    assert Present(Wrapped(inputs)) == Elements(inputs);
    if inputs != [] {
      assert Some(inputs[0]) in Wrapped(inputs);
    } else {
      assert Wrapped(inputs) == {};
    }
  }

  /** What the executor gets from a node, given the outputs it holds; `None` where the source raises. */
  ghost function NodeResult(node: Node, edges: seq<Edge>, w: World, outputs: map<NodeId, Dataset>): Option<Dataset> {
    match node.kind
    case Source =>
      if node.datasetId in w.datasets then Some(w.datasets[node.datasetId]) else None
    case _ =>
      var inputs := ResolveInputs(node.id, edges, outputs);
      if inputs == [] then None
      else if node.toolName !in w.tools then None
      else if !w.paramsValid(node.toolName, node.params) then None
      else JobOf(node, Elements(inputs), w)
  }

  /** Reached unbroken, a node yields its meaning. */
  lemma NodeResultIsMeaning(def: Definition, w: World, order: seq<NodeId>, k: nat, outputs: map<NodeId, Dataset>)
    requires Runnable(def, order) && k < |order| && !BrokenBefore(def, w, order, k)
    requires OutputsAre(def, w, order, k, outputs)
    ensures NodeResult(NodeOf(def, order[k]), def.edges, w, outputs) == Meaning(def, w, order[k])
  {
    var node := NodeOf(def, order[k]);
    if node.kind != Source {
      InputsAreUpstream(def, w, order, k, outputs);
      var inputs := ResolveInputs(node.id, def.edges, outputs);
      ApplyWrapped(node, inputs, w);
    }
  }

  // ---- One turn of the loop ----

  lemma Overwrite(m: map<NodeId, NodeStatus>, id: NodeId, a: NodeStatus, b: NodeStatus)
    ensures m[id := a][id := b] == m[id := b]
  {
  }

  lemma AppendAssociates(a: seq<Event>, b: seq<Event>, c: seq<Event>)
    ensures (a + b) + c == a + (b + c)
  {
  }

  ghost function LocalEnd(failed: bool, result: Option<Dataset>): NodeStatus {
    if failed then SKIPPED else if result.None? then FAILED else COMPLETED
  }

  ghost function Reported(id: NodeId, end: NodeStatus): seq<Event> {
    if end == SKIPPED then [NodeEvent(id, SKIPPED)] else [NodeEvent(id, RUNNING), NodeEvent(id, end)]
  }

  ghost function Record(outputs: map<NodeId, Dataset>, id: NodeId, end: NodeStatus, result: Option<Dataset>)
    : map<NodeId, Dataset>
  {
    if end == COMPLETED && result.Some? then outputs[id := result.value] else outputs
  }

  /** The flag and the outputs held decide a node's end exactly as the meanings do. */
  lemma LocalStep(def: Definition, w: World, order: seq<NodeId>, k: nat, failed: bool, outputs: map<NodeId, Dataset>)
    requires Runnable(def, order) && k < |order|
    requires failed == BrokenBefore(def, w, order, k)
    requires OutputsAre(def, w, order, k, outputs)
    ensures var result := NodeResult(NodeOf(def, order[k]), def.edges, w, outputs);
            && LocalEnd(failed, result) == EndStatus(def, w, order, k)
            && (!failed ==> result == Meaning(def, w, order[k]))
    ensures BrokenBefore(def, w, order, k + 1) <==> EndStatus(def, w, order, k) != COMPLETED
  {
    if !failed {
      NodeResultIsMeaning(def, w, order, k, outputs);
    }
  }

  lemma CompletedByStep(def: Definition, w: World, order: seq<NodeId>, k: nat, n: NodeId)
    requires Runnable(def, order) && k < |order|
    ensures CompletedBy(def, w, order, k + 1, n) <==>
            CompletedBy(def, w, order, k, n) || (order[k] == n && EndStatus(def, w, order, k) == COMPLETED)
  {
  }

  lemma RecordedEarlier(def: Definition, w: World, order: seq<NodeId>, k: nat, j: nat, outputs: map<NodeId, Dataset>)
    requires Runnable(def, order) && j < k < |order|
    requires order[j] in outputs && Meaning(def, w, order[j]) == Some(outputs[order[j]])
    ensures var now := Record(outputs, order[k], EndStatus(def, w, order, k), Meaning(def, w, order[k]));
            order[j] in now && Meaning(def, w, order[j]) == Some(now[order[j]])
  {
    assert order[j] != order[k];
  }

  lemma MeaningsStep(def: Definition, w: World, order: seq<NodeId>, k: nat, before: map<NodeId, Dataset>,
                     now: map<NodeId, Dataset>)
    requires Runnable(def, order) && k < |order| && MeaningsHeld(def, w, order, k, before)
    requires now == Record(before, order[k], EndStatus(def, w, order, k), Meaning(def, w, order[k]))
    ensures MeaningsHeld(def, w, order, k + 1, now)
  {
    forall j | 0 <= j < k + 1 && EndStatus(def, w, order, j) == COMPLETED
      ensures order[j] in now && Meaning(def, w, order[j]) == Some(now[order[j]])
    {
      if j < k {
        RecordedEarlier(def, w, order, k, j, before);
      }
    }
  }

  lemma HeldStep(def: Definition, w: World, order: seq<NodeId>, k: nat, before: map<NodeId, Dataset>)
    requires Runnable(def, order) && k < |order|
    requires OutputsAre(def, w, order, k, before)
    ensures OutputsAre(def, w, order, k + 1,
                       Record(before, order[k], EndStatus(def, w, order, k), Meaning(def, w, order[k])))
  {
    var now := Record(before, order[k], EndStatus(def, w, order, k), Meaning(def, w, order[k]));
    MeaningsStep(def, w, order, k, before, now);
    forall n | n in now
      ensures CompletedBy(def, w, order, k + 1, n)
    {
      CompletedByStep(def, w, order, k, n);
    }
  }

  lemma UntouchedStep(def: Definition, w: World, order: seq<NodeId>, k: nat, before: map<NodeId, Dataset>,
                      now: map<NodeId, Dataset>, n: NodeId)
    requires Runnable(def, order) && k < |order| && !CompletedBy(def, w, order, k + 1, n)
    requires now == Record(before, order[k], EndStatus(def, w, order, k), Meaning(def, w, order[k]))
    ensures (n in now <==> n in before) && (n in before ==> now[n] == before[n])
    ensures !CompletedBy(def, w, order, k, n)
  {
    CompletedByStep(def, w, order, k, n);
  }

  lemma OutputStep(def: Definition, w: World, order: seq<NodeId>, k: nat, start: map<NodeId, Dataset>,
                   before: map<NodeId, Dataset>)
    requires Runnable(def, order) && k < |order|
    requires OutputsWritten(def, w, order, k, start, before)
    ensures OutputsWritten(def, w, order, k + 1, start,
                           Record(before, order[k], EndStatus(def, w, order, k), Meaning(def, w, order[k])))
  {
    var now := Record(before, order[k], EndStatus(def, w, order, k), Meaning(def, w, order[k]));
    MeaningsStep(def, w, order, k, before, now);
    forall n | !CompletedBy(def, w, order, k + 1, n)
      ensures (n in now <==> n in start) && (n in start ==> now[n] == start[n])
    {
      UntouchedStep(def, w, order, k, before, now, n);
    }
  }

  lemma StatusStep(def: Definition, w: World, order: seq<NodeId>, k: nat, start: map<NodeId, NodeStatus>,
                   before: map<NodeId, NodeStatus>)
    requires Runnable(def, order) && k < |order|
    requires StatusesAre(def, w, order, k, start, before)
    ensures StatusesAre(def, w, order, k + 1, start, before[order[k] := EndStatus(def, w, order, k)])
  {
    assert order[..k + 1] == order[..k] + [order[k]];
  }

  /** All of a turn's effects, read off the node's local end and result. */
  lemma OneTurn(def: Definition, w: World, order: seq<NodeId>, k: nat, failed: bool, outputs: map<NodeId, Dataset>,
             startStatus: map<NodeId, NodeStatus>, status: map<NodeId, NodeStatus>,
             startOutput: map<NodeId, Dataset>, output: map<NodeId, Dataset>)
    requires Runnable(def, order) && k < |order|
    requires failed == BrokenBefore(def, w, order, k)
    requires OutputsAre(def, w, order, k, outputs)
    requires StatusesAre(def, w, order, k, startStatus, status)
    requires OutputsWritten(def, w, order, k, startOutput, output)
    ensures var result := NodeResult(NodeOf(def, order[k]), def.edges, w, outputs);
            var end := LocalEnd(failed, result);
            && BrokenBefore(def, w, order, k + 1) == (end != COMPLETED)
            && OutputsAre(def, w, order, k + 1, Record(outputs, order[k], end, result))
            && StatusesAre(def, w, order, k + 1, startStatus, status[order[k] := end])
            && OutputsWritten(def, w, order, k + 1, startOutput, Record(output, order[k], end, result))
            && EventsUpTo(def, w, order, k + 1) == EventsUpTo(def, w, order, k) + Reported(order[k], end)
  {
    LocalStep(def, w, order, k, failed, outputs);
    HeldStep(def, w, order, k, outputs);
    StatusStep(def, w, order, k, startStatus, status);
    OutputStep(def, w, order, k, startOutput, output);
  }

  /** What a run keeps of its rows and its log. */
  datatype Trace = Trace(status: map<NodeId, NodeStatus>, output: map<NodeId, Dataset>, log: seq<Event>)

  /** What the first k turns of the loop made of a run. */
  ghost predicate Reached(def: Definition, w: World, order: seq<NodeId>, k: nat, start: Trace, failed: bool, now: Trace)
    requires Runnable(def, order) && k <= |order|
  {
    && failed == BrokenBefore(def, w, order, k)
    && StatusesAre(def, w, order, k, start.status, now.status)
    && OutputsWritten(def, w, order, k, start.output, now.output)
    && now.log == start.log + EventsUpTo(def, w, order, k)
  }

  lemma BeforeLoop(def: Definition, w: World, order: seq<NodeId>, start: Trace)
    requires Runnable(def, order)
    ensures Reached(def, w, order, 0, start, false, start) && OutputsAre(def, w, order, 0, map[])
  {
  }

  lemma NodeMapAgrees(def: Definition, nodes: map<NodeId, Node>)
    requires Shaped(def)
    requires forall i :: 0 <= i < |def.nodes| ==> Ids(def)[i] in nodes && nodes[Ids(def)[i]] == def.nodes[i]
    ensures forall n :: n in Ids(def) ==> n in nodes && nodes[n] == NodeOf(def, n)
  {
    forall n | n in Ids(def)
      ensures n in nodes && nodes[n] == NodeOf(def, n)
    {
      var i :| 0 <= i < |def.nodes| && Ids(def)[i] == n;
      NodeOfUnique(def, i);
    }
  }

  ghost predicate IsNodeMap(def: Definition, nodes: map<NodeId, Node>) {
    forall n :: n in Ids(def) ==> n in nodes && nodes[n] == NodeOf(def, n)
  }

  function NodeMap(def: Definition): (nodes: map<NodeId, Node>)
    requires Shaped(def)
    ensures IsNodeMap(def, nodes)
  {
    assert forall i, j :: 0 <= i < |def.nodes| && 0 <= j < |def.nodes| && Ids(def)[i] == Ids(def)[j] ==> i == j;
    var nodes := map i | 0 <= i < |def.nodes| :: Ids(def)[i] := def.nodes[i];
    NodeMapAgrees(def, nodes);
    nodes
  }

  // ---- The executor ----

  /** Runs a node's job. It yields no output exactly when the job's call raises or the job does not read
      COMPLETED afterwards. */
  method RunJob(node: Node, inputs: set<Dataset>, w: World)
      returns (job: JobExecutor.Job, raised: bool, result: Option<Dataset>)
    ensures fresh(job)
    ensures result.None? <==> raised || job.status != JobExecutor.COMPLETED
    ensures result.Some? ==> result == job.output
    ensures result == JobOf(node, inputs, w)
  {
    job := new JobExecutor.Job();
    raised := job.Execute(w.tool(node.id, node.toolName, node.params, inputs),
                          w.transport(node.id, node.toolName, node.params, inputs));
    if raised || job.status != JobExecutor.COMPLETED {
      return job, raised, None;
    }
    result := job.output;
  }

  /** What a node yields; `None` where the source raises. */
  method ResolveNode(node: Node, edges: seq<Edge>, w: World, outputs: map<NodeId, Dataset>)
      returns (output: Option<Dataset>)
    ensures output == NodeResult(node, edges, w, outputs)
  {
    if node.kind == Source {
      return if node.datasetId in w.datasets then Some(w.datasets[node.datasetId]) else None;
    }
    var inputs := ResolveInputs(node.id, edges, outputs);
    if inputs == [] || node.toolName !in w.tools || !w.paramsValid(node.toolName, node.params) {
      return None;
    }
    var inputSet := set d | d in inputs;
    assert inputSet == Elements(inputs);
    var _, _, result := RunJob(node, inputSet, w);
    output := result;
  }

  /** The events that got through, when the i-th attempt to notify succeeds iff transport(i). */
  ghost function Delivered(log: seq<Event>, transport: nat -> bool): seq<Event> {
    if log == [] then []
    else Delivered(log[..|log| - 1], transport)
         + if transport(|log| - 1) then [log[|log| - 1]] else []
  }

  class Run {
    var status: RunStatus
    var progress: int
    var error: RunError
    /** The `WorkflowNodeRun` rows of the run: status and output per node id. */
    var nodeStatus: map<NodeId, NodeStatus>
    var nodeOutput: map<NodeId, Dataset>
    /** Notifications attempted, and those the transport accepted. */
    var log: seq<Event>
    var delivered: seq<Event>
    /** Which attempts the transport accepts. */
    const transport: nat -> bool

    constructor (transport: nat -> bool)
      ensures status == RunRunning && progress == 0 && error == NoError
      ensures nodeStatus == map[] && nodeOutput == map[] && log == [] && delivered == []
      ensures this.transport == transport
    {
      status, progress, error := RunRunning, 0, NoError;
      nodeStatus, nodeOutput := map[], map[];
      log, delivered := [], [];
      this.transport := transport;
    }

    ghost predicate Valid()
      reads this
    {
      delivered == Delivered(log, transport)
    }

    /** Best effort: a refused notification is dropped and nothing else changes. */
    method Publish(e: Event)
      requires Valid()
      modifies this`log, this`delivered
      ensures Valid() && log == old(log) + [e]
    {
      assert (log + [e])[..|log|] == log;
      if transport(|log|) {
        delivered := delivered + [e];
      }
      log := log + [e];
    }

    method FailRun(e: RunError)
      requires Valid()
      modifies this`status, this`error, this`log, this`delivered
      ensures Valid() && status == RunFailed && error == e && log == old(log) + [RunEvent(RunFailed)]
    {
      status := RunFailed;
      error := e;
      Publish(RunEvent(RunFailed));
    }

    /** The row and the event of a node that was run. */
    method EndNode(id: NodeId, output: Option<Dataset>, outputs: map<NodeId, Dataset>)
        returns (outputs': map<NodeId, Dataset>)
      requires Valid()
      modifies this`nodeStatus, this`nodeOutput, this`log, this`delivered
      ensures Valid()
      ensures var end := LocalEnd(false, output);
              && outputs' == Record(outputs, id, end, output)
              && nodeStatus == old(nodeStatus)[id := end]
              && nodeOutput == Record(old(nodeOutput), id, end, output)
              && log == old(log) + [NodeEvent(id, end)]
    {
      outputs' := outputs;
      if output.Some? {
        outputs' := outputs[id := output.value];
        nodeStatus := nodeStatus[id := COMPLETED];
        nodeOutput := nodeOutput[id := output.value];
      } else {
        nodeStatus := nodeStatus[id := FAILED];
      }
      Publish(NodeEvent(id, nodeStatus[id]));
    }

    /** One turn of the loop over the order, for an id that fits its column. */
    method ExecuteNode(node: Node, edges: seq<Edge>, w: World, failed: bool, outputs: map<NodeId, Dataset>)
        returns (failed': bool, outputs': map<NodeId, Dataset>)
      requires Valid() && IdFits(node.id)
      modifies this`nodeStatus, this`nodeOutput, this`log, this`delivered
      ensures Valid()
      ensures var end := LocalEnd(failed, NodeResult(node, edges, w, outputs));
              && failed' == (end != COMPLETED)
              && outputs' == Record(outputs, node.id, end, NodeResult(node, edges, w, outputs))
              && nodeStatus == old(nodeStatus)[node.id := end]
              && nodeOutput == Record(old(nodeOutput), node.id, end, NodeResult(node, edges, w, outputs))
              && log == old(log) + Reported(node.id, end)
    {
      failed', outputs' := failed, outputs;
      var id := node.id;
      Overwrite(nodeStatus, id, PENDING, RUNNING);
      nodeStatus := nodeStatus[id := PENDING];
      if failed {
        Overwrite(old(nodeStatus), id, PENDING, SKIPPED);
        nodeStatus := nodeStatus[id := SKIPPED];
        Publish(NodeEvent(id, SKIPPED));
        return;
      }
      nodeStatus := nodeStatus[id := RUNNING];
      Publish(NodeEvent(id, RUNNING));
      var output := ResolveNode(node, edges, w, outputs);
      ghost var end := LocalEnd(false, output);
      Overwrite(old(nodeStatus), id, RUNNING, end);
      AppendAssociates(old(log), [NodeEvent(id, RUNNING)], [NodeEvent(id, end)]);
      outputs' := EndNode(id, output, outputs);
      failed' := output.None?;
    }

    method FinishRun(failed: bool)
      requires Valid()
      modifies this`status, this`error, this`progress, this`log, this`delivered
      ensures Valid()
      ensures status == if failed then RunFailed else RunCompleted
      ensures error == if failed then NodesFailed else old(error)
      ensures progress == if failed then old(progress) else 100
      ensures log == old(log) + [RunEvent(status)]
    {
      if failed {
        FailRun(NodesFailed);
      } else {
        status := RunCompleted;
        progress := 100;
        Publish(RunEvent(RunCompleted));
      }
    }

    ghost function Now(): Trace
      reads this
    {
      Trace(nodeStatus, nodeOutput, log)
    }

    /** One turn of the loop, in terms of the meanings. */
    method ExecuteTurn(def: Definition, w: World, order: seq<NodeId>, k: nat, nodes: map<NodeId, Node>,
                       failed: bool, outputs: map<NodeId, Dataset>, ghost start: Trace)
        returns (failed': bool, outputs': map<NodeId, Dataset>)
      requires Runnable(def, order) && Valid() && k < |order| && IdFits(order[k])
      requires IsNodeMap(def, nodes)
      requires Reached(def, w, order, k, start, failed, Now()) && OutputsAre(def, w, order, k, outputs)
      modifies this`nodeStatus, this`nodeOutput, this`log, this`delivered
      ensures Valid()
      ensures Reached(def, w, order, k + 1, start, failed', Now()) && OutputsAre(def, w, order, k + 1, outputs')
    {
      assert order[k] in Ids(def);
      var node := nodes[order[k]];
      OneTurn(def, w, order, k, failed, outputs, start.status, nodeStatus, start.output, nodeOutput);
      AppendAssociates(start.log, EventsUpTo(def, w, order, k),
                       Reported(node.id, LocalEnd(failed, NodeResult(node, def.edges, w, outputs))));
      failed', outputs' := ExecuteNode(node, def.edges, w, failed, outputs);
    }

    /** The turns of the loop over the order, up to the first id that does not fit: writing its row raises,
        whatever the nodes before it did. */
    method ExecuteNodes(def: Definition, w: World, order: seq<NodeId>) returns (failed: bool, raised: bool)
      requires Runnable(def, order) && Valid()
      modifies this`nodeStatus, this`nodeOutput, this`log, this`delivered
      ensures Valid()
      ensures raised <==> Stop(order) < |order|
      ensures Reached(def, w, order, Stop(order), old(Now()), failed, Now())
    {
      var nodes := NodeMap(def);
      var outputs: map<NodeId, Dataset> := map[];
      var stop := Stop(order);
      failed := false;
      BeforeLoop(def, w, order, Now());
      for k := 0 to stop
        invariant Valid()
        invariant Reached(def, w, order, k, old(Now()), failed, Now()) && OutputsAre(def, w, order, k, outputs)
      {
        failed, outputs := ExecuteTurn(def, w, order, k, nodes, failed, outputs, old(Now()));
      }
      raised := stop < |order|;
    }

    /** A definition with a cycle fails the run at once. Otherwise every node up to the first id that does
        not fit ends as its meaning and its place in the order dictate, and reports RUNNING and its end
        status or SKIPPED alone. If all ids fit, the run completes iff every node does, and one run event
        closes the log; if not, the call raises with the run untouched and without a run event. */
    method Execute(def: Definition, w: World) returns (order: seq<NodeId>, raised: bool)
      requires Shaped(def) && Valid()
      modifies this
      ensures Valid()
      ensures raised <==> !HasCycle(def.edges) && !AllFit(def)
      ensures HasCycle(def.edges) ==>
                && status == RunFailed && error == CycleError
                && log == old(log) + [RunEvent(RunFailed)]
                && nodeStatus == old(nodeStatus) && nodeOutput == old(nodeOutput) && progress == old(progress)
      ensures !HasCycle(def.edges) ==>
                && Runnable(def, order) && FirstInFirstOut(Ids(def), def.edges, order)
                && TopologicalSort.OrderedByLevel(def.edges, order)
                && StatusesAre(def, w, order, Stop(order), old(nodeStatus), nodeStatus)
                && OutputsWritten(def, w, order, Stop(order), old(nodeOutput), nodeOutput)
                && (raised ==>
                      && status == old(status) && progress == old(progress) && error == old(error)
                      && log == old(log) + EventsUpTo(def, w, order, Stop(order)))
                && (!raised ==>
                      && Stop(order) == |order|
                      && status == (if Completes(def, w, order) then RunCompleted else RunFailed)
                      && progress == (if status == RunCompleted then 100 else old(progress))
                      && error == (if status == RunCompleted then old(error) else NodesFailed)
                      && log == old(log) + EventsUpTo(def, w, order, |order|) + [RunEvent(status)])
    {
      raised := false;
      var sorted := TopologicalSort.Sort(Ids(def), def.edges);
      if sorted.None? {
        FailRun(CycleError);
        return [], false;
      }
      order := sorted.value;
      StopIsEndIff(def, order);
      var failed;
      failed, raised := ExecuteNodes(def, w, order);
      if !raised {
        FinishRun(failed);
      }
    }

    /** The task around the executor: the run never stays RUNNING, and it ends COMPLETED exactly when the
        graph has no cycle, all ids fit and every node has a meaning. */
    method RunWorkflow(def: Definition, w: World) returns (order: seq<NodeId>)
      requires Shaped(def) && Valid()
      modifies this
      ensures Valid()
      ensures status == RunCompleted || status == RunFailed
      ensures status == RunCompleted <==>
              !HasCycle(def.edges) && Runnable(def, order) && Completes(def, w, order)
      ensures !HasCycle(def.edges) && !AllFit(def) ==>
                Runnable(def, order) && error == Crashed && log == old(log) + EventsUpTo(def, w, order, Stop(order))
    {
      status := RunRunning;
      var raised;
      order, raised := Execute(def, w);
      if raised {
        status := RunFailed;
        error := Crashed;
      }
    }
  }
}
