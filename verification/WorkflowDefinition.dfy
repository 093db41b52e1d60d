/** Workflow definitions, the check they pass before they are stored, and what a definition means:
    the dataset each node stands for, by recursion over the graph. */
module WorkflowDefinition {
  import opened Wrappers
  import opened Sequences
  import opened WorkflowGraph
  import JobExecutor
  import TopologicalSort

  type Dataset = JobExecutor.Dataset

  datatype NodeKind = Source | Operation | UnknownKind

  /** A missing JSON field reads as the empty string. */
  datatype Node = Node(id: NodeId, kind: NodeKind, datasetId: string, toolName: string, params: string)

  datatype Definition = Definition(nodes: seq<Node>, edges: seq<Edge>)

  /** What lies outside the graph: the user's datasets, the tool registry, and how the job of a node
      goes, given the node (its id goes into the output's name), the tool, the parameters and the set
      of input datasets: what the tool does, and which of the job's events get through. */
  datatype World = World(
    datasets: map<string, Dataset>,
    tools: set<string>,
    paramsValid: (string, string) -> bool,
    tool: (NodeId, string, string, set<Dataset>) -> JobExecutor.Tool,
    transport: (NodeId, string, string, set<Dataset>) -> JobExecutor.Transport)

  /** A request's definition: something that is not an object, an object whose `nodes` or `edges` are not
      lists, or a graph. Missing lists read as empty. */
  datatype Document = Scalar | NoLists | Graph(def: Definition)

  datatype Problem =
    | NotAnObject
    | NotLists
    | MissingId
    | DuplicateId(id: NodeId)
    | SourceWithoutDataset(id: NodeId)
    | UnknownDataset(id: NodeId)
    | OperationWithoutTool(id: NodeId)
    | UnknownTool(id: NodeId)
    | InvalidParams(id: NodeId)
    | UnknownType(id: NodeId)
    | DanglingEdge
    | Cyclic

  function Ids(def: Definition): seq<NodeId> {
    seq(|def.nodes|, i requires 0 <= i < |def.nodes| => def.nodes[i].id)
  }

  /** The shape every stored definition has: distinct ids, and edges between existing nodes. */
  ghost predicate Shaped(def: Definition) {
    Distinct(Ids(def)) && EndpointsKnown(Ids(def), def.edges)
  }

  ghost predicate NodeAcceptable(node: Node, w: World) {
    && node.id != ""
    && match node.kind {
      case Source => node.datasetId != "" && node.datasetId in w.datasets
      case Operation => node.toolName != "" && node.toolName in w.tools && w.paramsValid(node.toolName, node.params)
      case UnknownKind => false
    }
  }

  ghost predicate Acceptable(def: Definition, w: World) {
    && (forall node :: node in def.nodes ==> NodeAcceptable(node, w))
    && Shaped(def)
    && !HasCycle(def.edges)
  }

  /** The problem is there, and nothing that is looked at before it is wrong: first the id, then the kind,
      then what the kind needs. */
  ghost predicate Blames(problem: Problem, node: Node, seen: set<NodeId>, w: World) {
    && (problem == MissingId <==> node.id == "")
    && (problem == DuplicateId(node.id) <==> node.id != "" && node.id in seen)
    && (node.id != "" && node.id !in seen ==>
          match problem
          case UnknownType(id) => id == node.id && node.kind == UnknownKind
          case SourceWithoutDataset(id) => id == node.id && node.kind == Source && node.datasetId == ""
          case UnknownDataset(id) =>
            id == node.id && node.kind == Source && node.datasetId != "" && node.datasetId !in w.datasets
          case OperationWithoutTool(id) => id == node.id && node.kind == Operation && node.toolName == ""
          case UnknownTool(id) =>
            id == node.id && node.kind == Operation && node.toolName != "" && node.toolName !in w.tools
          case InvalidParams(id) =>
            && id == node.id && node.kind == Operation && node.toolName != "" && node.toolName in w.tools
            && !w.paramsValid(node.toolName, node.params)
          case _ => false)
  }

  /** One turn of the node loop. */
  function CheckNode(node: Node, seen: set<NodeId>, w: World): (problem: Option<Problem>)
    ensures problem != Some(NotAnObject) && problem != Some(NotLists)
    ensures problem.None? <==> NodeAcceptable(node, w) && node.id !in seen
    ensures problem.Some? ==> Blames(problem.value, node, seen, w)
  {
    if node.id == "" then Some(MissingId)
    else if node.id in seen then Some(DuplicateId(node.id))
    else match node.kind {
      case Source =>
        if node.datasetId == "" then Some(SourceWithoutDataset(node.id))
        else if node.datasetId !in w.datasets then Some(UnknownDataset(node.id))
        else None
      case Operation =>
        if node.toolName == "" then Some(OperationWithoutTool(node.id))
        else if node.toolName !in w.tools then Some(UnknownTool(node.id))
        else if !w.paramsValid(node.toolName, node.params) then Some(InvalidParams(node.id))
        else None
      case UnknownKind => Some(UnknownType(node.id))
    }
  }

  ghost function IdsBefore(def: Definition, i: nat): set<NodeId>
    requires i <= |def.nodes|
  {
    set j | 0 <= j < i :: def.nodes[j].id
  }

  lemma KnownIds(def: Definition)
    ensures forall id :: id in IdsBefore(def, |def.nodes|) <==> id in Ids(def)
  {
    forall id | id in Ids(def)
      ensures id in IdsBefore(def, |def.nodes|)
    {
      var j :| 0 <= j < |Ids(def)| && Ids(def)[j] == id;
    }
    forall id | id in IdsBefore(def, |def.nodes|)
      ensures id in Ids(def)
    {
      var j :| 0 <= j < |def.nodes| && def.nodes[j].id == id;
      assert Ids(def)[j] == id;
    }
  }

  lemma FaultyNode(def: Definition, i: nat, w: World)
    requires i < |def.nodes| && CheckNode(def.nodes[i], IdsBefore(def, i), w).Some?
    ensures !NodeAcceptable(def.nodes[i], w) || !Distinct(Ids(def))
  {
    if NodeAcceptable(def.nodes[i], w) {
      var j :| 0 <= j < i && def.nodes[j].id == def.nodes[i].id;
      assert Ids(def)[j] == Ids(def)[i];
    }
  }

  /** Accepts exactly the acceptable definitions. A node problem is that of the first faulty node;
      edges are judged only when every node is fine, and cycles only when every edge is. */
  method Validate(def: Definition, w: World) returns (problem: Option<Problem>)
    ensures problem.None? <==> Acceptable(def, w)
    ensures problem == Some(Cyclic) <==>
            (forall node :: node in def.nodes ==> NodeAcceptable(node, w)) && Shaped(def) && HasCycle(def.edges)
    ensures problem == Some(DanglingEdge) <==>
            && (forall node :: node in def.nodes ==> NodeAcceptable(node, w))
            && Distinct(Ids(def)) && !EndpointsKnown(Ids(def), def.edges)
    ensures problem != Some(NotAnObject) && problem != Some(NotLists)
    ensures problem.Some? && problem.value !in {Cyclic, DanglingEdge} ==>
            exists i :: 0 <= i < |def.nodes| && problem == CheckNode(def.nodes[i], IdsBefore(def, i), w)
                        && forall j :: 0 <= j < i ==> CheckNode(def.nodes[j], IdsBefore(def, j), w).None?
  {
    var ids := Ids(def);
    var nodeIds: set<NodeId> := {};
    for i := 0 to |def.nodes|
      invariant nodeIds == IdsBefore(def, i)
      invariant forall j :: 0 <= j < i ==> CheckNode(def.nodes[j], IdsBefore(def, j), w).None?
      invariant forall j, k :: 0 <= j < k < i ==> ids[j] != ids[k]
    {
      problem := CheckNode(def.nodes[i], nodeIds, w);
      if problem.Some? {
        FaultyNode(def, i, w);
        return;
      }
      nodeIds := nodeIds + {def.nodes[i].id};
    }
    for i := 0 to |def.edges|
      invariant forall j :: 0 <= j < i ==> def.edges[j].source in ids && def.edges[j].target in ids
    {
      KnownIds(def);
      if def.edges[i].source !in nodeIds || def.edges[i].target !in nodeIds {
        assert def.edges[i] in def.edges;
        return Some(DanglingEdge);
      }
    }
    var order := TopologicalSort.Sort(ids, def.edges);
    problem := if order.None? then Some(Cyclic) else None;
  }

  /** The whole check, shape first. */
  method ValidateDocument(doc: Document, w: World) returns (problem: Option<Problem>)
    ensures problem.None? <==> doc.Graph? && Acceptable(doc.def, w)
    ensures problem == Some(NotAnObject) <==> doc.Scalar?
    ensures problem == Some(NotLists) <==> doc.NoLists?
  {
    match doc
    case Scalar => problem := Some(NotAnObject);
    case NoLists => problem := Some(NotLists);
    case Graph(def) => problem := Validate(def, w);
  }

  // ---- Meaning ----

  ghost function NodeOf(def: Definition, n: NodeId): Node
    requires n in Ids(def)
    ensures NodeOf(def, n) in def.nodes && NodeOf(def, n).id == n
  {
    var i :| 0 <= i < |def.nodes| && Ids(def)[i] == n;
    def.nodes[i]
  }

  lemma NodeOfUnique(def: Definition, i: nat)
    requires Distinct(Ids(def)) && i < |def.nodes|
    ensures def.nodes[i].id in Ids(def) && NodeOf(def, def.nodes[i].id) == def.nodes[i]
  {
    assert Ids(def)[i] == def.nodes[i].id;
    var found := NodeOf(def, Ids(def)[i]);
    assert found in def.nodes && found.id == Ids(def)[i];
    var j :| 0 <= j < |def.nodes| && def.nodes[j] == found;
    assert Ids(def)[j] == Ids(def)[i];
  }

  ghost predicate Reaches(edges: seq<Edge>, m: NodeId, n: NodeId) {
    exists path :: EndsAt(edges, path, n) && path[0] == m && |path| >= 2
  }

  /** Everything a node is computed from, directly or indirectly. */
  ghost function Ancestors(ids: seq<NodeId>, edges: seq<Edge>, n: NodeId): set<NodeId> {
    set m | m in ids && Reaches(edges, m, n)
  }

  ghost function Upstream(edges: seq<Edge>, n: NodeId): set<NodeId> {
    set e | e in edges && e.target == n :: e.source
  }

  /** Without cycles, an input of n is computed from strictly less than n is. */
  lemma AncestorsShrink(ids: seq<NodeId>, edges: seq<Edge>, m: NodeId, n: NodeId)
    requires EndpointsKnown(ids, edges) && !HasCycle(edges)
    requires m in Upstream(edges, n)
    ensures m in ids && Ancestors(ids, edges, m) < Ancestors(ids, edges, n)
  {
    var e :| e in edges && e.target == n && e.source == m;
    ExtendPath(edges, [m], n);
    assert Reaches(edges, m, n);
    forall a | a in Ancestors(ids, edges, m)
      ensures a in Ancestors(ids, edges, n)
    {
      var path :| EndsAt(edges, path, m) && path[0] == a && |path| >= 2;
      ExtendPath(edges, path, n);
      assert EndsAt(edges, path + [n], n) && (path + [n])[0] == a;
    }
    if Reaches(edges, m, m) {
      var path :| EndsAt(edges, path, m) && path[0] == m && |path| >= 2;
      assert IsCycle(edges, path);
    }
    assert m in Ancestors(ids, edges, n) && m !in Ancestors(ids, edges, m);
  }

  /** The output of a node's job, if the job completes. */
  ghost function JobOf(node: Node, inputs: set<Dataset>, w: World): Option<Dataset> {
    JobExecutor.JobResult(w.tool(node.id, node.toolName, node.params, inputs),
                          w.transport(node.id, node.toolName, node.params, inputs))
  }

  ghost function Present(results: set<Option<Dataset>>): set<Dataset> {
    set r | r in results && r.Some? :: r.value
  }

  /** What an operation yields from the set of its upstream results. */
  ghost function Apply(node: Node, upstream: set<Option<Dataset>>, w: World): Option<Dataset> {
    if upstream == {} || None in upstream then None
    else if node.toolName !in w.tools || !w.paramsValid(node.toolName, node.params) then None
    else JobOf(node, Present(upstream), w)
  }

  /** The dataset a node stands for, if it has one: a source is its dataset, any other node is its
      tool applied to the set of what its upstream nodes stand for. */
  ghost function Meaning(def: Definition, w: World, n: NodeId): Option<Dataset>
    requires Shaped(def) && !HasCycle(def.edges) && n in Ids(def)
    decreases Ancestors(Ids(def), def.edges, n)
  {
    var node := NodeOf(def, n);
    if node.kind == Source then
      if node.datasetId in w.datasets then Some(w.datasets[node.datasetId]) else None
    else
      Apply(node, UpstreamMeanings(def, w, n), w)
  }

  lemma UpstreamShrinks(def: Definition, n: NodeId)
    requires Shaped(def) && !HasCycle(def.edges)
    ensures forall m :: m in Upstream(def.edges, n) ==>
              m in Ids(def) && Ancestors(Ids(def), def.edges, m) < Ancestors(Ids(def), def.edges, n)
  {
    forall m | m in Upstream(def.edges, n)
      ensures m in Ids(def) && Ancestors(Ids(def), def.edges, m) < Ancestors(Ids(def), def.edges, n)
    {
      AncestorsShrink(Ids(def), def.edges, m, n);
    }
  }

  ghost function UpstreamMeanings(def: Definition, w: World, n: NodeId): set<Option<Dataset>>
    requires Shaped(def) && !HasCycle(def.edges) && n in Ids(def)
    decreases Ancestors(Ids(def), def.edges, n), 0
  {
    UpstreamShrinks(def, n);
    set m | m in Upstream(def.edges, n) :: Meaning(def, w, m)
  }

  // ---- What the meaning of a node is ----

  /** A source stands for its dataset, if the user has it. */
  lemma SourceMeaning(def: Definition, w: World, n: NodeId)
    requires Shaped(def) && !HasCycle(def.edges) && n in Ids(def) && NodeOf(def, n).kind == Source
    ensures var id := NodeOf(def, n).datasetId;
            Meaning(def, w, n) == if id in w.datasets then Some(w.datasets[id]) else None
  {
  }

  /** Every node with an edge into n has a meaning, and there is one. */
  ghost predicate Supplied(def: Definition, w: World, n: NodeId)
    requires Shaped(def) && !HasCycle(def.edges)
  {
    && Upstream(def.edges, n) != {}
    && forall m :: m in Upstream(def.edges, n) ==> m in Ids(def) && Meaning(def, w, m).Some?
  }

  /** The datasets that the nodes with an edge into n stand for. */
  ghost function UpstreamDatasets(def: Definition, w: World, n: NodeId): set<Dataset>
    requires Shaped(def) && !HasCycle(def.edges) && Supplied(def, w, n)
  {
    set m | m in Upstream(def.edges, n) :: Meaning(def, w, m).value
  }

  lemma SuppliedIff(def: Definition, w: World, n: NodeId)
    requires Shaped(def) && !HasCycle(def.edges) && n in Ids(def)
    ensures Supplied(def, w, n) <==> UpstreamMeanings(def, w, n) != {} && None !in UpstreamMeanings(def, w, n)
    ensures Supplied(def, w, n) ==> Present(UpstreamMeanings(def, w, n)) == UpstreamDatasets(def, w, n)
  {
    UpstreamShrinks(def, n);
    forall m | m in Upstream(def.edges, n)
      ensures m in Ids(def) && Meaning(def, w, m) in UpstreamMeanings(def, w, n)
    {
    }
    if Supplied(def, w, n) {
      forall d
        ensures d in Present(UpstreamMeanings(def, w, n)) <==> d in UpstreamDatasets(def, w, n)
      {
        if d in UpstreamDatasets(def, w, n) {
          var m :| m in Upstream(def.edges, n) && Meaning(def, w, m).value == d;
          assert Some(d) in UpstreamMeanings(def, w, n);
        }
      }
    }
  }

  /** An operation stands for what its tool yields from the datasets its upstream nodes stand for, if
      none of them is missing, the tool is known and takes the parameters, and its job's events get
      through; and for nothing otherwise. */
  lemma OperationMeaning(def: Definition, w: World, n: NodeId)
    requires Shaped(def) && !HasCycle(def.edges) && n in Ids(def) && NodeOf(def, n).kind != Source
    ensures var node := NodeOf(def, n);
            if Supplied(def, w, n) && node.toolName in w.tools && w.paramsValid(node.toolName, node.params) then
              var inputs := UpstreamDatasets(def, w, n);
              var tool := w.tool(n, node.toolName, node.params, inputs);
              var transport := w.transport(n, node.toolName, node.params, inputs);
              && ((forall i: nat :: transport(i)) ==> Meaning(def, w, n) == tool.result)
              && (Meaning(def, w, n).Some? ==>
                    Meaning(def, w, n) == tool.result && JobExecutor.Completes(tool, transport))
              && (Meaning(def, w, n).None? ==> !JobExecutor.Completes(tool, transport))
            else Meaning(def, w, n) == None
  {
    SuppliedIff(def, w, n);
  }
}
