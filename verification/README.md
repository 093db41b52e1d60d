# Verified models of the backend's stateful cores

This project models, in Dafny, the parts of the Django backend whose correctness depends on a whole
run, a recursion or a loop, and proves what they are for. `dafny verify dfyconfig.toml` checks all
of it.

| Modules | What they model |
|---|---|
| `Forest`, `ClosureTable`, `DatasetTree`, `DatasetListing` | the dataset tree, its transitive-closure table kept by the save signals, deletion, and the nested listing |
| `WorkflowGraph`, `ReleaseOrder`, `TopologicalSort`, `WorkflowDefinition`, `WorkflowRun` | validation, sorting and execution of workflow DAGs |
| `Progress`, `JobExecutor` | the throttled progress reporter and the run of one processing job |
| `FeatureStaging` | the batched buffer loop and the hand-off of staged features |
| `TaskListCache`, `CacheFreshness`, `TaskListServer` | the version-keyed task-list cache, as a machine whose steps are single cache and database accesses; exactly when it is never stale; the code tied to the machine |
| `KeysetWalk`, `ItemSearch` | keyset pagination of the item search |
| `Otp` | one-time passwords: issue, verification, rate limits, over an expiring cache |
| `ItemImages` | positions and the primary flag of an item's images |
| `ResourceSplit` | the split of a machine's capacity among the services |
| `Wrappers`, `Sequences` | an option type, and facts about sequences without repetition |

Code that changes state is a class whose methods are proved against functions on values; the laws are
lemmas about those functions and about whole runs.

## Results worth knowing

- Over every history of saves and deletions the closure table is exactly the table of k-th parents on
  all nodes whose climb ends, its recursive rebuild terminates, and no insert repeats an (ancestor,
  descendant) pair. Nothing in the code keeps a node out of its own subtree: from a forest such a save
  raises at the unique constraint after the pointer is stored, leaves a cycle, and any other save
  succeeds. Saving the same cyclic parent again succeeds silently, and any save that leaves no cycle
  makes the whole table exact again (`DatasetTree.Store.Save`).
- While there is a cycle, the listing leaves out exactly the nodes on and below it
  (`DatasetListing.ListingHoldsGrounded`), and deleting a former ancestor hands files of surviving datasets
  to the cleanup exactly when rows naming it are left on such nodes
  (`DatasetTree.IndexedIsSubtreeIff`, `DatasetTree.StaleIndexCounterexample`).
- `_topological_sort` fails exactly on cyclic graphs. On any other it emits the one order that its queue
  leaves open: every node in its turn, by definition order, then by when its last predecessor comes and
  by that predecessor's edges (`ReleaseOrder.OrderIsUnique`), and so by longest-path level. A completed
  run leaves on every node the recursive meaning of the graph,
  whatever the order; an operation means what its tool yields from its upstream datasets
  (`WorkflowDefinition.OperationMeaning`).
- `validate_definition` accepts operations without incoming edges and node ids longer than their column.
  With tools that never fail, an accepted definition completes exactly when it has neither
  (`WorkflowRun.AcceptedCompletesIff`). An overlong id makes the executor raise between two nodes,
  without a run event (`WorkflowRun.Run.Execute`).
- Publishing is best effort for workflow events but not for job events: a job whose output is saved
  and whose progress is 100 reads FAILED exactly when only its terminal event was refused
  (`JobExecutor.Job.Execute`).
- Whatever reads interleave with the writes of a run, the task-list cache is never stale if and only if
  no version write that leaves its user without a write in flight makes a version current again after a
  write has changed the rows it stood for (`CacheFreshness.CacheNeverStaleIff`). Increments and first
  versions written as if in one step meet this, and so does an ordinary lost update; a first version
  written late need not (`CacheFreshness.LateFirstVersionCounterexample`).
- Following search cursors visits every item exactly once by recency always, by price exactly when
  one page suffices or no price is null, and by distance exactly when rounding the cursor to
  millimetres spares every page boundary (`ItemSearch.SearchWalkIff`, with a counterexample for each
  failing family).
- A partial reorder of images meets the unique constraint exactly when an image left out, or one later
  in the list, sits on a target position (`ItemImages.NoClashIff`). The primary flag is lost exactly by
  clearing it, or by confirming a primary image whose row the database refuses: for an overlong key, an
  oversized width or height, or because the highest position is the largest the column holds
  (`ItemImages.StepKeepsPrimaryIff`).
- A report lowers the stored progress exactly when it is a fresh step below 100 that arrives after the
  completion (`Progress.StoredFallsIff`).
- The CPU requests fit the whole-core node exactly when the machine does not have a single core
  (`ResourceSplit.RequestsFitNodeIff`).

## Model

| member | source | states |
|---|---|---|
| `Forest.DepthUnique` | web_gis_app/models/dataset_models.py:72-77 | on a forest, an ancestor and a descendant are at one depth only |
| `Forest.ChildSubtreeSmaller` | web_gis_app/signals.py:115-131 | recursion over children terminates: a child's subtree is a strict subset of its parent's |
| `Forest.ReparentKeepsForestIff` | web_gis_app/signals.py:69-112 | moving a node keeps the forest if and only if the new parent is outside the node's subtree |
| `Forest.OwnChildCounterexample` | web_gis_app/signals.py:93-109 | moving a root under its only child leaves no forest |
| `Forest.MoveKeepsForest` | web_gis_app/signals.py:79-109 | creating a node, or moving one to the root or under a node outside its subtree, keeps the forest |
| `ClosureTable.ExactIsUnique` | web_gis_app/models/dataset_models.py:76-77 | a table that is exactly the k-th-parent relation meets the unique constraint |
| `ClosureTable.ExactDetermines` | web_gis_app/models/dataset_models.py:59-77 | exactness fixes the table: two exact tables over the same pointers are equal |
| `ClosureTable.IndexIsSubtree` | web_gis_app/models/dataset_models.py:13-14 | the index query for the descendants of a node answers exactly the subtree along `parent`, itself included |
| `DatasetTree.AncestorRowsExact` | web_gis_app/signals.py:21-30 | one row deeper for each of the parent's rows are exactly the proper ancestors of the node |
| `DatasetTree.AncestorRowsFit` | web_gis_app/signals.py:23-32 | for a node whose climb ends, the bulk insert repeats no (ancestor, descendant) pair, of the table or of itself |
| `DatasetTree.KeptIsExactIff` | web_gis_app/models/dataset_models.py:59-77 | on a forest, what every history keeps is that the table is exact |
| `DatasetTree.RelinkedExact` | web_gis_app/signals.py:100-106 | under an exact parent a node whose climb ends can be relinked, and its rows become exactly its k-th parents |
| `DatasetTree.OffSubtreeKept` | web_gis_app/signals.py:97-109 | nodes outside the saved one's subtree stay exact without being touched |
| `DatasetTree.ForestIffOutside` | web_gis_app/signals.py:69-112 | for creates and moves alike, the saved pointers form a forest if and only if the new parent is outside the node's subtree; if not, the node is on a cycle |
| `DatasetTree.CycleMeetsSelfRow` | web_gis_app/signals.py:100-106 | under a parent in the node's own subtree the new rows collide with the node's self-reference |
| `DatasetTree.Store.BulkCreate` | web_gis_app/models/dataset_models.py:76-77 | inserts all rows, or none when an (ancestor, descendant) pair would be repeated |
| `DatasetTree.CreatedLinks` | web_gis_app/signals.py:79-88 | a new node can always be linked to its parent, whatever state the tree is in |
| `DatasetTree.Store.CreateAncestorClosures` | web_gis_app/signals.py:13-34 | inserts one row deeper for each of the parent's rows, or raises, inserting nothing, exactly when that repeats a pair; the count returned is the number of the parent's rows |
| `DatasetTree.Store.DeleteProperAncestorRows` | web_gis_app/signals.py:100-103 | of the node's rows only the self-reference is left, other nodes' rows are untouched |
| `DatasetTree.Store.Relink` | web_gis_app/signals.py:100-106 | clears and rebuilds one node's rows from its parent's; a node whose climb ends, under an exact parent, becomes exact; no other node's rows are touched |
| `DatasetTree.ChainCloses` | web_gis_app/signals.py:123-131 | a rebuild that comes back to a node it came through is refused there |
| `DatasetTree.Store.RebuildDescendantClosures` | web_gis_app/signals.py:115-131 | terminates on any pointers; from an exact node whose climb ends it gets through and makes every node of the subtree exact; if it gets through, the node it started from is on no cycle; nodes outside the subtree keep their rows |
| `DatasetTree.Store.CacheOldParent` | web_gis_app/signals.py:37-50 | remembers the stored parent of an existing node, null for a new one |
| `DatasetTree.Store.MaintainTransitiveClosure` | web_gis_app/signals.py:69-112 | keeps the table exact on every node whose climb ends, whether or not it gets through; gets through for a create, an unchanged parent and a node whose climb ends, raises for a moved node now on a cycle, leaving the remembered parent |
| `DatasetTree.Store.Save` | web_gis_app/signals.py:37-112 | for every history of saves: stores that one pointer and keeps the table exact on every node whose climb ends; from a forest succeeds if and only if the new parent is outside the node's own subtree; an unchanged parent succeeds and changes nothing; a save that leaves no cycle succeeds and makes the whole table exact, whatever was refused before |
| `DatasetTree.ClosedSetIsSubtree` | web_gis_app/models/dataset_models.py:41-48 | what the cascade along `parent` removes, level by level, is the whole subtree |
| `DatasetTree.RemainingKept` | web_gis_app/models/dataset_models.py:41-71 | after the cascade the remaining rows are exact on every remaining node whose climb ends, and a forest stays a forest |
| `DatasetTree.IndexedIsSubtreeIff` | web_gis_app/models/dataset_models.py:13-14 | for a node whose climb ends the index names the whole subtree, and nothing else if and only if no row naming it is left on a node on or below a cycle |
| `DatasetTree.StaleIndexCounterexample` | web_gis_app/views/dataset_views.py:223-230 | after a refused move a node that is no longer below the root is still named by the root's index |
| `DatasetTree.Store.CollectPaths` | web_gis_app/views/dataset_views.py:223-230 | exactly the distinct non-empty paths of the datasets the index names |
| `DatasetTree.Store.CascadeDelete` | web_gis_app/models/dataset_models.py:41-48 | removes exactly the subtree, cyclic or not, its datasets and the rows at either end, and keeps the invariant |
| `DatasetTree.Store.Destroy` | web_gis_app/views/dataset_views.py:219-239 | returns, without repetition, the non-empty storage paths the index names; on a forest exactly those of the datasets the cascade removes; keeps the invariant on the rest |
| `DatasetListing.InNameOrder` | web_gis_app/serializers/dataset_serializers.py:104-108 | each child once, by name |
| `DatasetListing.TreeHoldsSubtree` | web_gis_app/serializers/dataset_serializers.py:102-109 | the nested tree of a node holds every node of its subtree exactly once |
| `DatasetListing.TreeMirrorsParents` | web_gis_app/serializers/dataset_serializers.py:102-109 | every tree edge is a parent pointer and siblings are in name order |
| `DatasetListing.ListingIsOfRoots` | web_gis_app/views/dataset_views.py:48-54 | the listing is one tree for each root, in their order, with the root on top, each node of its subtree once, every node under its own parent and siblings in name order |
| `DatasetListing.ListingHoldsGrounded` | web_gis_app/views/dataset_views.py:48-54 | the listing of the roots holds every node whose climb ends exactly once, and no other |
| `DatasetListing.ListingIsCompleteIff` | web_gis_app/views/dataset_views.py:48-54 | it holds every node exactly once if and only if the pointers form a forest |
| `WorkflowGraph.LevelsAreLongestPaths` | web_gis_app/workflows/dag_executor.py:115-126 | a numbering one above the highest predecessor is the longest-path level |
| `WorkflowGraph.StuckMeansCycle` | web_gis_app/workflows/dag_executor.py:128-129 | nodes that all wait for one another contain a directed cycle |
| `WorkflowGraph.FinishOne` | web_gis_app/workflows/dag_executor.py:122-123 | emitting a node lowers each in-degree by the number of its edges there, duplicates counted |
| `ReleaseOrder.TargetsInEdgeOrder` | web_gis_app/workflows/dag_executor.py:109-113 | the downstream list of a node is the targets of its edges, in the order of the definition |
| `ReleaseOrder.OrderIsUnique` | web_gis_app/workflows/dag_executor.py:115-126 | two topological orders in which every node comes in its turn are equal: the turns leave no choice, within a level or across levels |
| `TopologicalSort.CountEdges` | web_gis_app/workflows/dag_executor.py:107-113 | in-degrees count incoming edges with duplicates, and the downstream lists hold all targets in edge order |
| `TopologicalSort.InitialQueue` | web_gis_app/workflows/dag_executor.py:115 | the queue starts with exactly the nodes of in-degree zero, each once, in definition order |
| `TopologicalSort.ReleaseTargets` | web_gis_app/workflows/dag_executor.py:122-126 | the inner loop keeps the queue in the order of turns, sorted by level, and holding exactly the nodes whose remaining degree is zero |
| `TopologicalSort.LastRelease` | web_gis_app/workflows/dag_executor.py:122-126 | a target whose remaining degree drops to zero has all predecessors emitted, and does not come again among the targets |
| `TopologicalSort.LevelledIsOrderedByLevel` | web_gis_app/workflows/dag_executor.py:115-126 | nodes met in numbering order are met in order of longest-path level |
| `TopologicalSort.DryQueueMeansCycle` | web_gis_app/workflows/dag_executor.py:128-129 | a queue that runs dry early leaves a cycle behind |
| `TopologicalSort.Sort` | web_gis_app/workflows/dag_executor.py:104-131 | fails if and only if the graph has a directed cycle; otherwise the permutation of the nodes in which every node comes in its turn: by definition order, or by the position of its last predecessor and then by that one's last edge to it; so every edge points forward, by nondecreasing longest-path level, duplicate edges and self-loops included |
| `WorkflowDefinition.CheckNode` | web_gis_app/workflows/dag_executor.py:56-95 | a node passes exactly when it is acceptable and its id is new; if not, the problem named is there and nothing that is looked at before it is wrong |
| `WorkflowDefinition.Validate` | web_gis_app/workflows/dag_executor.py:42-101 | accepts exactly the definitions with acceptable nodes, distinct ids, known endpoints and no cycle, so that an accepted one never reaches the executor's cycle branch; and says which rejection comes first |
| `WorkflowDefinition.ValidateDocument` | web_gis_app/workflows/dag_executor.py:45-101 | the whole check: a definition that is no object, or whose parts are no lists, is rejected as such before the graph is looked at |
| `WorkflowDefinition.AncestorsShrink` | web_gis_app/workflows/dag_executor.py:134-146 | without cycles the meaning of a node is well founded |
| `WorkflowDefinition.SourceMeaning` | web_gis_app/workflows/dag_executor.py:171-173 | a source means its dataset, if the user has it |
| `WorkflowDefinition.OperationMeaning` | web_gis_app/workflows/dag_executor.py:182-209 | an operation means what its tool, run on exactly the datasets its upstream nodes mean, yields, if none of these is missing, there is one, the tool is known, takes the parameters, and its job's events get through; else nothing |
| `WorkflowRun.ResolvedInputs` | web_gis_app/workflows/dag_executor.py:238-243 | the inputs resolved are exactly the outputs held for sources of edges into the node |
| `WorkflowRun.RunJob` | web_gis_app/workflows/dag_executor.py:193-209 | a node's job yields no output if and only if its call raises or the job does not read COMPLETED; else the job's output |
| `WorkflowRun.ResolveNode` | web_gis_app/workflows/dag_executor.py:171-209 | a source yields its dataset, an operation its job's output; fails without inputs, tool or valid parameters |
| `WorkflowRun.InputsAreUpstream` | web_gis_app/workflows/dag_executor.py:238-243 | for a node reached unbroken the `in node_outputs` filter drops nothing, and the inputs are as a set the meanings of its upstream nodes |
| `WorkflowRun.NodeResultIsMeaning` | web_gis_app/workflows/dag_executor.py:171-209 | a node reached unbroken yields the recursive meaning of the graph at that node |
| `WorkflowRun.StatusShape` | web_gis_app/workflows/dag_executor.py:152-226 | statuses in order are a COMPLETED prefix, at most one FAILED, then only SKIPPED |
| `WorkflowRun.EventsShape` | web_gis_app/workflows/dag_executor.py:152-226 | the log, event by event: RUNNING and COMPLETED for each node before the first without a meaning, RUNNING and FAILED for that one, SKIPPED alone for each after it |
| `WorkflowRun.OrderDoesNotMatter` | web_gis_app/workflows/dag_executor.py:149-235 | whether a run completes, and what a completed run leaves on the rows, is the same for every topological order |
| `WorkflowRun.StopIsEndIff` | web_gis_app/models/workflow_models.py:79-82 | the loop reaches the end of the order if and only if every id fits its column |
| `WorkflowRun.AcceptedCompletesIff` | web_gis_app/workflows/dag_executor.py:152-186 | with tools that never fail an accepted definition completes if and only if every operation has an incoming edge and every id has at most 100 characters |
| `WorkflowRun.LongIdCounterexample` | web_gis_app/workflows/dag_executor.py:154-158 | a lone source with a longer id is accepted, its node has a meaning, and its run cannot complete |
| `WorkflowRun.LoneOperationCounterexample` | web_gis_app/workflows/dag_executor.py:78-101 | a lone operation is accepted and its run always fails |
| `WorkflowRun.Run.Publish` | web_gis_app/workflows/dag_executor.py:254-261 | a refused notification changes nothing but what is delivered |
| `WorkflowRun.Run.FailRun` | web_gis_app/workflows/dag_executor.py:246-251 | the run is FAILED with the error, and one run event is added |
| `WorkflowRun.Run.EndNode` | web_gis_app/workflows/dag_executor.py:174-226 | the end of a node that was run: COMPLETED with its output, or FAILED, and its event |
| `WorkflowRun.Run.ExecuteNode` | web_gis_app/workflows/dag_executor.py:152-226 | one turn for an id that fits: SKIPPED after a failure, else RUNNING and then COMPLETED with its output or FAILED; other rows untouched |
| `WorkflowRun.Run.ExecuteTurn` | web_gis_app/workflows/dag_executor.py:152-226 | one turn takes the statuses, outputs and events that the meanings dictate one node further |
| `WorkflowRun.Run.FinishRun` | web_gis_app/workflows/dag_executor.py:228-235 | FAILED after a failure, else COMPLETED at progress 100, with one run event |
| `WorkflowRun.Run.ExecuteNodes` | web_gis_app/workflows/dag_executor.py:149-226 | raises if and only if some id does not fit; statuses, outputs and events up to the first such id are those the meanings and the order dictate |
| `WorkflowRun.Run.Execute` | web_gis_app/workflows/dag_executor.py:134-235 | the nodes run in the order of their turns; a cycle fails the run with one event; an id that does not fit raises there, with the run untouched and no run event; else the run is COMPLETED if and only if every node has a meaning, rows of completed nodes hold it, and the log is per node RUNNING and its end or SKIPPED alone, then exactly one run event |
| `WorkflowRun.Run.RunWorkflow` | web_gis_app/tasks.py:126-162 | the run never stays RUNNING, and is COMPLETED if and only if the graph has no cycle, all ids fit and every node has a meaning; a crash is marked FAILED without a run event |
| `Progress.ReportsAreMonotone` | web_gis_app/progress.py:26-45 | over any calls the emitted progress stays in 0..100 and never falls, and at most the first twenty reports are below 100 |
| `Progress.HundredIsKept` | web_gis_app/progress.py:29-34 | over any calls a report of 100 or more is never suppressed, and nothing below 100 is emitted after it |
| `Progress.StoredIs` | web_gis_app/progress.py:36-50 | the stored progress is the last report, or 100 after a completion |
| `Progress.StoredFallsIff` | web_gis_app/progress.py:26-50 | a call lowers the stored progress if and only if it reports a full step below 100 when 100 is stored |
| `Progress.StoredNeverFalls` | web_gis_app/progress.py:26-36 | before a completion the stored progress never falls |
| `Progress.LateReportCounterexample` | web_gis_app/progress.py:26-50 | a report of 50 after a completion takes the stored progress from 100 to 50 |
| `Progress.Reporter.constructor` | web_gis_app/progress.py:21-24 | a fresh reporter has made no calls and emits its first report, whatever it is |
| `Progress.Reporter.Report` | web_gis_app/progress.py:26-45 | keeps the reports and the stored progress those of the calls made; raises exactly when it emits an event that is refused |
| `Progress.Reporter.Complete` | web_gis_app/progress.py:47-58 | stores 100 whatever was stored |
| `JobExecutor.Job.MakeReports` | web_gis_app/workflows/job_executor.py:37-39 | the tool is interrupted exactly when one of its progress events is refused |
| `JobExecutor.HowJobsEnd` | web_gis_app/workflows/job_executor.py:36-59 | COMPLETED exactly when the tool yields an output and every event gets through, the terminal one included; else FAILED, or untouched when the opening event is refused; a tool that raises leaves the output as it was |
| `JobExecutor.OnlyFailureEvent` | web_gis_app/workflows/job_executor.py:53-59 | which event tells of the failure is determined by the tool and the refused event |
| `JobExecutor.JobProgressNeverFalls` | web_gis_app/workflows/job_executor.py:29-51 | over the reports and the completion of one run the stored progress never falls |
| `JobExecutor.Job.RunTool` | web_gis_app/workflows/job_executor.py:32-43 | the tool reaches its end exactly when no progress event is refused and it does not raise by itself; only then its output is saved |
| `JobExecutor.Job.Execute` | web_gis_app/workflows/job_executor.py:22-59 | COMPLETED if and only if no event is refused and the tool yields an output, then with that output, progress 100 and no exception; else FAILED, or untouched when the opening event is refused; the call raises if and only if the opening or the failure event is refused; the progress is one of the run's |
| `JobExecutor.LateRefusalCounterexample` | web_gis_app/workflows/job_executor.py:45-59 | a job reads FAILED with its output saved when only the terminal event is refused |
| `FeatureStaging.Store.Buffer` | web_gis_app/workflows/vector_workflows/vector_operations.py:19-62 | stages exactly one image of each input feature, in order, whatever the number of batches |
| `FeatureStaging.RepointMoves` | web_gis_app/workflows/shared_operations.py:93-96 | re-pointing moves all staged features and no other dataset's |
| `FeatureStaging.WithoutKeepsOthers` | web_gis_app/workflows/shared_operations.py:103-104 | deleting a dataset removes its features and no other dataset's |
| `FeatureStaging.Store.HandOff` | web_gis_app/workflows/shared_operations.py:54-104 | the output dataset gets every staged feature before the staging dataset goes, so that the cascade deletes none; without a staging dataset nothing moves |
| `FeatureStaging.Store.BufferWorkflow` | web_gis_app/workflows/shared_operations.py:40-113 | the whole tool: the output holds, for each input feature in order, the buffered geometry with the same properties; nothing lost, nothing else changed |
| `TaskListCache.StepKeepsSound` | todo_app/views.py:17-36 | whatever interleaves, every entry, call result and response holds rows the table had at some moment since its version was first current |
| `TaskListCache.CalmIff` | todo_app/cache.py:18-36 | a step keeps every settled user's version steady if and only if it passes the check on version writes |
| `TaskListCache.CacheNeverStale` | todo_app/views.py:17-36 | in every state of a run whose version writes pass the check, an entry under the current version of a user without a write in flight is the user's current list |
| `TaskListCache.ResponsesAreFresh` | todo_app/views.py:23-36 | any call returns what the table held at some moment since its version was first current; in a run that passes the check, a call that began with no write in flight returns what the table held during the call |
| `TaskListCache.UndisturbedIsGuarded` | todo_app/cache.py:18-36 | version writes that nobody overtakes between their get and their set pass the check |
| `CacheFreshness.RunReplays` | todo_app/cache.py:18-36 | task writes, increments and first versions alone determine tables and versions |
| `CacheFreshness.Plant` | todo_app/views.py:17-36 | beside the writes of any run a list call can end up holding, under any version, the rows of any moment since that version was first current |
| `CacheFreshness.FreshIffSteady` | todo_app/views.py:17-36 | for a user without a write in flight, the cache is fresh under every interleaving of readers with the run's writes if and only if no write has changed the rows since the current version was first current |
| `CacheFreshness.CacheNeverStaleIff` | todo_app/views.py:17-36 | the cache is fresh for every user at every moment under every interleaving of readers if and only if every version write of the run passes the check |
| `CacheFreshness.LateFirstVersionCounterexample` | todo_app/cache.py:18-27 | a reader that sets version 1 late brings a stale entry back |
| `CacheFreshness.LostUpdateIsHarmless` | todo_app/cache.py:30-36 | two increments that read the same version lose an update and still pass the check |
| `TaskListServer.Server.LookUpVersion` | todo_app/cache.py:20-21 | the get of the version, as one step of the machine |
| `TaskListServer.Server.StoreFirstVersion` | todo_app/cache.py:23-27 | the set of a missing version to 1, as one step of the machine |
| `TaskListServer.Server.GetUserCacheVersion` | todo_app/cache.py:18-27 | uninterrupted, returns the current version, 1 if there was none, and keeps the cache fresh |
| `TaskListServer.Server.IncrementUserCacheVersion` | todo_app/cache.py:30-36 | uninterrupted, raises the version by one, settles one write and keeps the cache fresh |
| `TaskListServer.Server.IncrementTaskCacheVersion` | todo_app/signals.py:8-11 | the bump that follows each write |
| `TaskListServer.Server.ProbeCache` | todo_app/views.py:22-26 | the probe, as one step of the machine |
| `TaskListServer.Server.QueryTasks` | todo_app/views.py:28-31 | a miss reads the current rows |
| `TaskListServer.Server.StoreEntry` | todo_app/views.py:33-36 | the rows are stored under the key read at the start of the call, and no other entry changes |
| `TaskListServer.Server.List` | todo_app/views.py:17-36 | run alone with no write in flight, returns the user's current tasks, cached or not; a hit returns the entry and changes none, a miss leaves the rows under the current key |
| `KeysetWalk.ShownIffExact` | dead_stock_app/services/search.py:118-139 | for any rows and cursors, the walk shows the rows once each in order if and only if every page's cursor leads to the next row |
| `KeysetWalk.LeadingWalk` | dead_stock_app/services/search.py:118-139 | such a walk ends, in the number of pages of `PageCount` |
| `KeysetWalk.PageCountIsCeiling` | dead_stock_app/services/search.py:118-139 | that number is max(1, ceil(n / limit)) |
| `ItemSearch.ListingUnique` | dead_stock_app/services/search.py:88-109 | the declared order of a set of items is one sequence, for each sort |
| `ItemSearch.PageIsPrefix` | dead_stock_app/services/search.py:118-137 | fetching one row more than the limit yields a page of at most the limit, with a cursor exactly when rows are left |
| `ItemSearch.PageByRecency` | dead_stock_app/services/search.py:107-122 | by recency a page shows matching items newest first, equally new ones by id, all behind the cursor's stamp and id; one that is left out comes after all shown, and only if the page is full |
| `ItemSearch.PageByPrice` | dead_stock_app/services/search.py:98-122 | likewise by price: cheapest first, equal prices by id, null prices last and never behind a cursor |
| `ItemSearch.PageByDistance` | dead_stock_app/services/search.py:88-122 | likewise by distance: nearest first, equal distances by id |
| `ItemSearch.ForeignCursorIsIgnored` | dead_stock_app/services/search.py:91-111 | a cursor of another sort changes nothing |
| `ItemSearch.RoundsToNearest` | dead_stock_app/services/search.py:131 | a distance enters a cursor as the nearest point of the millimetre grid, the even one of two |
| `ItemSearch.NextNamesLast` | dead_stock_app/services/search.py:118-137 | there is a next cursor exactly when selected items are left over, and it names the last item shown, by its stamp, its price or 0, or its rounded distance |
| `ItemSearch.SuffixIsListed` | dead_stock_app/services/search.py:91-116 | the filtered query in the declared order is a suffix of the unfiltered one |
| `ItemSearch.CompleteIffClean` | dead_stock_app/services/search.py:86-139 | the walk visits every item once, in order, if and only if the cursor of each page resumes right after its last item |
| `ItemSearch.RecentWalkIsComplete` | dead_stock_app/services/search.py:107-116 | by recency: always, in max(1, ceil(n / limit)) pages |
| `ItemSearch.PricedWalk` | dead_stock_app/services/search.py:98-106 | by price with every price present: complete, in the fewest pages |
| `ItemSearch.PriceWalkIff` | dead_stock_app/services/search.py:98-133 | by price: complete if and only if one page holds everything or no price is null |
| `ItemSearch.DistanceWalkIff` | dead_stock_app/services/search.py:88-131 | by distance: complete if and only if rounding the cursor spares every page boundary |
| `ItemSearch.GridWalkIsComplete` | dead_stock_app/services/search.py:129-131 | distances on the millimetre grid are enough, in the fewest pages |
| `ItemSearch.SearchWalkIff` | dead_stock_app/services/search.py:53-139 | for every requested sort, with or without a point, exactly when following cursors from the empty one visits every matching item once, in order; a complete walk takes the fewest pages |
| `ItemSearch.OffGridCounterexample` | dead_stock_app/services/search.py:131 | two items 0.4 mm and 1 m away, one per page: the walk is not complete, and no number of pages ends it |
| `ItemSearch.NullPriceCounterexample` | dead_stock_app/services/search.py:133 | two items without a price, one per page: the walk is not complete |
| `Otp.RunTracks` | dead_stock_app/services/otp.py:77-106 | in any timed run the cache entry of a phone is there exactly when its latest code is neither matched nor given up, with its number of tries, and expires one lifetime after its issue or its last wrong submission |
| `Otp.VerifyOutcomeIs` | dead_stock_app/services/otp.py:87-106 | what any submission is answered in any timed run, by what has happened to the latest code: used up or 300 seconds old, tried three times, right or wrong |
| `Otp.RightCodeIsAccepted` | dead_stock_app/services/otp.py:92-106 | within 300 seconds of its issue the right code is accepted as one of the first three submissions, and a wrong one is answered as such |
| `Otp.AtMostThreeTries` | dead_stock_app/services/otp.py:92-95 | an issued code is compared with at most three submissions |
| `Otp.SuccessIsRecent` | dead_stock_app/services/otp.py:87-106 | a success submits the most recently issued code, not used before, less than 900 seconds after its issue |
| `Otp.NoSecondSuccess` | dead_stock_app/services/otp.py:105-106 | between two successes of a phone another code is issued |
| `Otp.PassesAreSpaced` | dead_stock_app/services/otp.py:31-32 | requests of one phone that pass the limits are at least 60 seconds apart |
| `Otp.RunWindows` | dead_stock_app/services/otp.py:34-46 | passes of one address fall into windows of 3600 seconds, disjoint or equal, with at most ten each |
| `Otp.AtMostTwentyPerHour` | dead_stock_app/services/otp.py:34-46 | at most twenty requests of one address pass within any half-open 3600 seconds |
| `Otp.RequestOutcomeIs` | dead_stock_app/services/otp.py:30-84 | a request is refused for its phone exactly within 60 seconds of the last issue; if not, and without an address or with fewer than ten counted requests of it in the last 3600 seconds, it passes, and fails only in sending |
| `Otp.OtpService.CheckRateLimits` | dead_stock_app/services/otp.py:30-46 | refuses within a phone's 60 seconds without counting, else counts for the address and refuses above ten |
| `Otp.OtpService.RequestOtp` | dead_stock_app/services/otp.py:77-84 | is the request step of the machine: the code is issued and the phone locked even when sending fails |
| `Otp.OtpService.VerifyOtp` | dead_stock_app/services/otp.py:87-106 | is the verify step of the machine: absent, too many tries, wrong with a renewed lifetime, or consumed |
| `ItemImages.ConfirmKeepsValid` | dead_stock_app/views/items.py:239-251 | a confirmed image gets a position above all others, and positions stay unique |
| `ItemImages.ConfirmLeaves` | dead_stock_app/views/items.py:228-255 | a confirmed image goes one past the highest position, the first to 0, primary if asked or first; nothing moves, and the others lose the flag exactly when it was to have it, refused or not |
| `ItemImages.PatchLeaves` | dead_stock_app/views/items.py:295-316 | a refused patch changes nothing; any other gives the position and flag asked for, moves no other image, and takes the flag from the others exactly when it gives it |
| `ItemImages.DeleteLeaves` | dead_stock_app/views/items.py:318-328 | a delete removes that image alone and moves none; if it was primary, the image at the lowest position left becomes so |
| `ItemImages.LengthCheck` | dead_stock_app/views/items.py:266-268 | the length check passes if and only if the ids are distinct images of the item |
| `ItemImages.ParkIffClear` | dead_stock_app/views/items.py:272-275 | a write of the first pass is refused if and only if a condition on the positions before the call fails |
| `ItemImages.LandIffClear` | dead_stock_app/views/items.py:276-279 | likewise for a write of the second pass |
| `ItemImages.NoClashIff` | dead_stock_app/views/items.py:271-279 | these conditions, over all writes, say in one: images left out stay clear of both target ranges, no listed image sits where an earlier one is parked, and the range is not exceeded |
| `ItemImages.PartialReorderCounterexample` | dead_stock_app/views/items.py:257-281 | reordering one of two images to position 0 fails and changes nothing |
| `ItemImages.ReorderPlaces` | dead_stock_app/views/items.py:271-279 | a reorder that succeeds ends with position = list index; other images and all flags are untouched |
| `ItemImages.ReorderIsAllOrNothing` | dead_stock_app/views/items.py:257-281 | a refused reorder changes nothing; an empty list is invalid, and ids that are not distinct images of the item are not found |
| `ItemImages.FullReorderSucceeds` | dead_stock_app/views/items.py:257-281 | reordering all images of an item whose positions are below 1000 always succeeds |
| `ItemImages.ReorderKeepsValid` | dead_stock_app/views/items.py:257-281 | any reorder, partial or refused, keeps positions unique |
| `ItemImages.StepKeepsAtMostOne` | dead_stock_app/views/items.py:228-328 | no action leaves two primary images |
| `ItemImages.PatchSucceedsIff` | dead_stock_app/views/items.py:295-316 | a patch with a boolean flag, or none, goes through if and only if its position is absent, or free and in range |
| `ItemImages.StepKeepsPrimaryIff` | dead_stock_app/views/items.py:228-328 | an action leaves a non-empty item without a primary image if and only if it clears the flag, or confirms a primary image whose key, size or position its columns cannot hold |
| `ItemImages.RunInvariants` | dead_stock_app/views/items.py:228-328 | over any sequence of actions positions stay unique, at most one image is primary, and exactly one is unless a step loses it |
| `ItemImages.ConfirmCounterexample` | dead_stock_app/views/items.py:236-251 | confirming a primary image with position 32767 in use fails after the demotion and leaves no primary image |
| `ItemImages.LongKeyCounterexample` | dead_stock_app/serializers.py:224-228 | so does confirming one with a key of more than 255 characters |
| `ItemImages.Item.SavePosition` | dead_stock_app/models.py:114-123 | a position update is refused exactly when another image holds the position or it is out of range |
| `ItemImages.Item.ReorderImages` | dead_stock_app/views/items.py:257-281 | every intermediate write keeps the constraint; the outcome is success, 400, 404 or a rolled-back database error as specified |
| `ItemImages.Item.HighestPosition` | dead_stock_app/views/items.py:239-242 | finds the highest position in use |
| `ItemImages.Item.ConfirmImage` | dead_stock_app/views/items.py:228-255 | rejects what the serializer rejects; the new image is primary if asked or first, the others are demoted; the demotion stays when the insert is refused for its key, size or position |
| `ItemImages.Item.PatchImage` | dead_stock_app/views/items.py:295-316 | changes flag and position with the view's checks, all or nothing |
| `ItemImages.Item.DeleteImage` | dead_stock_app/views/items.py:318-328 | removes the image, whatever becomes of its file; if it was primary the one at the lowest position becomes primary |
| `ResourceSplit.SplitConserves` | k8s/compute_resources.py:150-154 | weights that sum to 100 never hand out more than there is and waste fewer units than there are services |
| `ResourceSplit.ComputeAllocations` | k8s/compute_resources.py:150-159 | limits are the weighted shares, requests half of them, and the limits conserve both capacities |
| `ResourceSplit.UsableIs` | k8s/compute_resources.py:125-129 | 800 millicores per core and 85 percent of the memory, rounded down, are usable |
| `ResourceSplit.RepositorySplitConserves` | k8s/compute_resources.py:105-129 | the repository's weights sum to 100 in both columns, and on any machine its split conserves the usable CPU and memory |
| `ResourceSplit.RequestsFitNodeIff` | k8s/compute_resources.py:105-250 | all CPU requests together fit the whole-core node if and only if the machine does not have one core |

## Left out

- Save: whether a move to a place below somebody else's cycle raises depends on rows left behind there and
  is not characterised; concurrent saves are not modelled.
- CacheNeverStaleIff: version keys are never evicted, and each task write is visible before its signal
  reads the version; for deletes that depends on the enclosing transaction.
- QueryTasks: `list` orders a queryset it then does not use, so the rows are whatever the default
  listing returns.
- ValidateDocument: nodes and edges that are no objects, and node ids that are no strings, on which the
  source raises or which it stores as text, are not modelled.
- Execute (of `WorkflowRun.Run`) takes a definition with distinct ids and known endpoints, as the
  serializer stores no other (web_gis_app/serializers/workflow_serializers.py:21).
- RunJob: how a job goes is a function of node, tool, parameters and the set of inputs; which input the
  job treats as primary, time stamps, error texts and cancellation by another process are not modelled.
  A tool saves its output after its last report, as the repository's tools do.
- SearchWalkIff: the search filters (text, radius, category, price bounds, status) are the set of matching
  items, which does not change between pages; the cursor text encoding is a record, prices in cursors are
  exact, and limits below -1 (negative slices) are not modelled.
- RequestOtp and VerifyOtp: calls do not interleave; the random code, the clock and the gateway's answer
  are parameters.
- ReorderImages: ids are in canonical text form. Requests on the images of one item do not interleave.
- Buffer: the geometry operation is uninterpreted, the features do not change while they are read, and
  progress reports inside the loop are not modelled.
- ComputeAllocations: the cap by the container runtime's memory, the database settings and the storage
  sizes are not modelled.
- Authentication, serializers, throttling, object storage, raster and PostGIS computations, event streams
  and language-model calls are outside the model.
- The nearby-shop cache rounds coordinates in its key and leaves out the limit, so that it does not
  answer the query it caches; the create-read-update-delete apps keep no invariant across requests.
