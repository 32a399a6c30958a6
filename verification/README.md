# A verified model of the TEN framework's cores

This project models, in Dafny, the parts of the TEN framework and its agent
server whose behaviour is hardest to see from reading one function, and proves
what they promise for every input, every run and every interleaving.

| file | what it models |
|---|---|
| `TypedList.dfy`, `TypedListWorld.dfy` | the intrusive doubly linked typed list on a heap of nodes, then any number of such lists over one allocator |
| `GraphModel.dfy`, `GraphRows.dfy`, `GraphEditor.dfy` | the playground's graph editor: in-place edits of nested connections, as operations on a set of edges and on a list of rows |
| `Migration.dfy`, `MigrationThreads.dfy` | connection migration over three threads, as a machine that any scheduler may drive, and as handlers that assign fields and post tasks |
| `ClosingFlow.dfy`, `ClosingResources.dfy` | the closing flow over a tree of resources, in the same two forms |
| `WorkerRegistry.dfy`, `WorkerRuns.dfy`, `AgentServer.dfy`, `WorkerPorts.dfy` | the agent server's worker registry under concurrent requests, the runs that reach or break its limits, its handlers and sweep, and its port counter |
| `PropertyRewrite.dfy`, `ProcessProperty.dfy`, `EnvSubstitution.dfy` | the rewrite of `property.json` before a worker starts |
| `LogDecrypt.dfy` | the encrypted log format, writer and resynchronising reader |
| `ManifestUpgrade.dfy`, `GraphsUpgrade.dfy` | two format upgraders |
| `HttpBody.dfy` | the reassembly of HTTP bodies on the ESP32 client |
| `Wrappers.dfy`, `Sequences.dfy`, `Counting.dfy`, `JsonValues.dfy` | shared types and small facts |

`dafny verify dfyconfig.toml` checks all of it.

## How to read it

Code that updates state is modelled by classes and methods. Every method is
tied by its `ensures` to a function of the old state, and the promises are
lemmas about those functions. Two protocols and the worker registry are
concurrent; for these an *action* is one access to shared state, `Step` gives
its effect, `RunAll` that of any sequence of actions, and the theorems quantify
over all sequences. The classes beside them (`Runtime`, `Resources`, `Server`)
run the real handlers and are proved to perform runs of the machine.

## Where the code falls short

Each of these is proved, with the exact condition under which the code does
meet its purpose.

* `iterator_next` of the typed list takes its successor from the wrong node. A
  loop built on it visits the nodes in order, each once, only if the list has at
  most one node (`IteratorInOrderIffShort`). The `foreach` macro is correct.
* An encrypted log entry of 65536 bytes or more does not read back
  (`EntryRoundTripIffShort`): the writer does not check the length.
* With k start requests in flight the worker limits are exceeded by up to k - 1
  (`LimitsHold`), and for every k some run gets that far (`WorkersLimitAttained`,
  `GraphLimitAttained`). So the limit on all workers is kept in every run if and
  only if k is at most 1 (`WorkersLimitKeptIff`), and the limit of a graph if and
  only if k is at most 1 or the other limit is low enough (`GraphLimitKeptIff`).
* The exit monitor removes a worker by channel name. A running worker can be
  left unregistered exactly when it is started while something of an earlier
  worker on the same channel is still about (`RegisteredWhileAlive`,
  `UncleanStartCanBeLost`); stopping a worker and starting it again is enough
  (`LostRun`).
* The sweep panics when it comes to a key that left the registry after it began,
  and only then (`SweepPanicsIff`). A worker that exits at the wrong moment
  brings that about (`SweepCanPanic`); runs in which no name goes that a sweep
  has still to visit are free of it (`QuietSweepsNeverPanic`).
* Ports given out within a period of each other are distinct in every run if and
  only if at most one caller asks at a time (`PortsDistinctIff`). With k callers
  the range ends at 30000 + k, which is reached (`InterleavedPortsInRange`,
  `HighestPortAttained`), and with two or more it begins at 10000
  (`LowestPortIff`).
* The placeholder loop always replaces in the original text, so of several
  supplied placeholders only the last is replaced (`LastSuppliedWins`). The
  substitution is complete if and only if the text is unambiguous
  (`CompleteIffUnambiguous`).
* `processProperty` returns neither a file nor an error if and only if it could
  read the file and the graph name is empty, the token could not be built, or
  there are no predefined graphs (`NothingWrittenIff`). Exactly then a request
  that is served leaves a worker that was started with an empty file name
  (`HandlerStartRequest`).
* The migration is started by a command that the app routes to another thread.
  The state leaves INIT on any first message, though (protocol.c:244-246), and a
  first message that is no command is dropped while the connection is attached
  to the app (connection.c:451-457). The migration then never starts and every
  later message waits for ever, as it does behind a first command that the app
  keeps: a run completes if and only if MSG 1 is a routed command
  (`CompletesIffRouted`, `StuckForever`, `StuckRun`).
* The manifest upgrade mistakes an attribute that is itself an object named
  "properties" for the new format (`DeclarationsKeptIff`) and is not idempotent
  for a section with a required list but no property object
  (`UpgradeTwiceIff`).
* The graphs upgrade overwrites an existing "graph": a file can be restored if
  and only if it had none (`UpgradeIsReversibleIff`), and two upgraded files are
  the same if and only if they differed in nothing else (`SameUpgradeIff`,
  `UpgradeLosesIff`).
* Enabling and disabling the RTC video leaves an empty property object on a node
  that had none (`EnableAndDisableVideo`).

Where code and documentation disagree the code was followed: the migration
header names the state DOING where the code uses FIRST_MSG, set on the first
input; and where it has later messages delivered to a connection attached to the
engine or the remote, the code accepts them on a remote only
(connection.c:421-433), which the connection gets when the engine handles the
migrating command.

## Model

| member | source | states |
|---|---|---|
| TypedList.List.IntegrityHolds | core/include/ten_utils/lib/typed_list.h:55-96 | a valid chain passes the check |
| TypedList.List.IntegrityIff | core/include/ten_utils/lib/typed_list.h:55-96 | the check passes if and only if the size agrees with both ends, nothing is linked before the front or behind the back, and a single node is at both ends |
| TypedList.List.PushFront | core/include/ten_utils/lib/typed_list.h:226-244 | a detached node becomes the first of the chain, the chain stays valid |
| TypedList.List.PushBack | core/include/ten_utils/lib/typed_list.h:246-264 | a detached node becomes the last of the chain, the chain stays valid |
| TypedList.List.PopFront | core/include/ten_utils/lib/typed_list.h:289-311 | the first node leaves fully detached, null from an empty list |
| TypedList.List.PopBack | core/include/ten_utils/lib/typed_list.h:313-335 | the last node leaves fully detached, null from an empty list |
| TypedList.List.Swap | core/include/ten_utils/lib/typed_list.h:176-196 | the two chains are exchanged, also for a list with itself |
| TypedList.List.Concat | core/include/ten_utils/lib/typed_list.h:198-224 | every node of target moves behind those of self, target ends empty |
| TypedList.List.Clear | core/include/ten_utils/lib/typed_list.h:125-136 | each node is destroyed once, in order, and none is read after it was freed |
| TypedList.Node.Destroy | core/include/ten_utils/lib/typed_list_node.h:156-179 | a live node is destroyed and recorded, a freed one cannot be |
| TypedList.Node.Clone | core/include/ten_utils/lib/typed_list_node.h:140-154 | the clone is a fresh detached node with the copied data |
| TypedList.List.AppendClone | core/include/ten_utils/lib/typed_list.h:345-351 | one round of the copy loop appends one fresh clone |
| TypedList.List.Copy | core/include/ten_utils/lib/typed_list.h:337-353 | fresh clones of the source's nodes are appended in order, the source and its nodes are unchanged |
| TypedList.List.Find | core/include/ten_utils/lib/typed_list.h:371-383 | the first node whose data compares equal, null exactly if there is none |
| TypedList.ForeachVisitsInOrder | core/include/ten_utils/lib/typed_list.h:17-31 | the macro visits every node once, in order, then ends |
| TypedList.IteratorInOrderIffShort | core/include/ten_utils/lib/typed_list.h:355-390 | stepping with iterator_next visits the nodes in order if and only if there is at most one |
| TypedList.IteratorVisitsTwice | core/include/ten_utils/lib/typed_list.h:385-390 | with two or more nodes iterator_next yields the second node twice |
| TypedListWorld.ApplyConserves | core/include/ten_utils/lib/typed_list.h:125-353 | one call on any of the lists neither loses nor duplicates a node |
| TypedListWorld.RunConserves | core/include/ten_utils/lib/typed_list.h:125-353 | over any run each node is in a list, loose or destroyed exactly as often as it was allocated |
| TypedListWorld.EffectAt | core/include/ten_utils/lib/typed_list.h:125-353 | node by node, which end of which list each call touches and in which order nodes move |
| TypedListWorld.Lists.Step | core/include/ten_utils/lib/typed_list.h:125-353 | a call on the linked nodes has exactly the effect Apply gives on the sequences, the other lists untouched |
| TypedListWorld.Lists.Run | core/include/ten_utils/lib/typed_list.h:55-353 | any run refines the run on sequences, every node holds the data it was made or copied with, the lists stay disjoint and valid, and all pass check_integrity |
| TypedListWorld.Lists.DoConcat | core/include/ten_utils/lib/typed_list.h:198-224 | ownership of the nodes moves from one list to the other among any number of lists |
| TypedListWorld.Lists.DoCopy | core/include/ten_utils/lib/typed_list.h:337-353 | the clones are new to the whole world, join one list only, and hold what the copy callback makes of the data of the originals, in order |
| TypedListWorld.Lists.DoClear | core/include/ten_utils/lib/typed_list.h:125-136 | the cleared nodes are added to the destroyed ones, of which none occurs twice |
| GraphModel.AddEdgeIsUnion | ai_agents/playground/src/common/graph.ts:238-354 | adding a connection adds exactly one edge to the set |
| GraphModel.AddEdgeTwice | ai_agents/playground/src/common/graph.ts:299-354 | addOrUpdateConnection is idempotent on the structure itself |
| GraphModel.AddEdgeKeepsShape | ai_agents/playground/src/common/graph.ts:238-354 | sources, names and destinations stay unique, no part becomes empty |
| GraphModel.AlreadyThereIsEdge | ai_agents/playground/src/common/graph.ts:283-293 | on a well-formed graph the duplicate check finds exactly the existing edges |
| GraphModel.AddEdgeAlreadyThere | ai_agents/playground/src/common/graph.ts:283-293 | the structure is unchanged if and only if the found item has the destination |
| GraphModel.RemoveEmptyKeepsEdges | ai_agents/playground/src/common/graph.ts:446-477 | cleaning up empty parts keeps every edge |
| GraphModel.RemoveNodeIsDifference | ai_agents/playground/src/common/graph.ts:481-509 | exactly the edges that touch the node go |
| GraphModel.RemoveNodeKeepsShape | ai_agents/playground/src/common/graph.ts:481-509 | nothing empty is left and uniqueness is kept |
| GraphModel.RemoveEdgesIsDifference | ai_agents/playground/src/common/graph.ts:358-424 | for each shape of the optional arguments exactly the selected edges go |
| GraphModel.RemoveEdgesKeepsShape | ai_agents/playground/src/common/graph.ts:358-424 | uniqueness and the absence of empty parts are kept |
| GraphModel.AddThenRemoveNode | ai_agents/playground/src/common/graph.ts:299-354 | adding any edges at a node and removing the node restores the connections if and only if they had no empty parts and did not mention it |
| GraphModel.PrunedIsFresh | ai_agents/playground/src/common/graph.ts:481-509 | afterwards no connection mentions the node |
| GraphModel.EditsRefineEdgeSet | ai_agents/playground/src/common/graph.ts:238-509 | any sequence of edits acts on the edge set as the corresponding unions and differences, keeping the structural invariant |
| GraphRows.AddEdgeRows | ai_agents/playground/src/common/graph.ts:238-354 | adding an edge inserts one row, behind those of its source and name and with the shared app, or none if it is there; no other row moves or changes |
| GraphRows.RemoveEmptyRows | ai_agents/playground/src/common/graph.ts:446-477 | cleaning up empty parts changes no row |
| GraphRows.RemoveNodeRows | ai_agents/playground/src/common/graph.ts:481-509 | removing a node takes out exactly the rows that touch it, the others keep their order, app and message conversion |
| GraphRows.RemoveEdgesRows | ai_agents/playground/src/common/graph.ts:358-424 | removing edges takes out exactly the selected rows, the others keep their order, app and message conversion |
| GraphRows.RemovalCleansIffFound | ai_agents/playground/src/common/graph.ts:358-424 | a removal that finds what it names leaves no empty part, and any other leaves the connections alone |
| GraphEditor.Editor.AddNode | ai_agents/playground/src/common/graph.ts:143-166 | appends the node, throws exactly for a used name and then changes nothing |
| GraphEditor.Editor.RemoveNode | ai_agents/playground/src/common/graph.ts:171-178 | removes the first node of the name, throws exactly if there is none |
| GraphEditor.Editor.AddConnection | ai_agents/playground/src/common/graph.ts:238-298 | has the effect AddEdge and leaves the graph unchanged exactly when it throws |
| GraphEditor.Editor.AddOrUpdateConnection | ai_agents/playground/src/common/graph.ts:299-354 | has the effect AddEdge |
| GraphEditor.Editor.RemoveConnection | ai_agents/playground/src/common/graph.ts:358-424 | has the effect RemoveEdges, cleaning up only when it removed something |
| GraphEditor.Editor.RemoveEmptyConnections | ai_agents/playground/src/common/graph.ts:446-477 | has the effect RemoveEmpty |
| GraphEditor.Editor.RemoveNodeAndConnections | ai_agents/playground/src/common/graph.ts:481-509 | removes the node and prunes the connections, or changes nothing if there is no such node |
| GraphEditor.Editor.LinkTool | ai_agents/playground/src/common/graph.ts:514-555 | the llm calls the tool and the tool registers with it, a vision tool gets the frames of the first rtc node, its text goes to the first message collector, and no other edge is added |
| GraphEditor.Editor.LinkAndRemoveTool | ai_agents/playground/src/common/graph.ts:143-555 | adding, linking and removing a tool restores the nodes always and the connections if and only if they had no empty parts and did not mention it |
| GraphEditor.Editor.EnableRTCVideoSubscribe | ai_agents/playground/src/common/graph.ts:557-573 | throws exactly without an rtc node; afterwards the first node of its name has both video properties with the values for on, or neither of them, and all else is as before |
| GraphEditor.MergedAt | ai_agents/playground/src/common/graph.ts:200-215 | an update that is not the empty text wins over what was there, every other property stays |
| GraphEditor.Editor.EnableAndDisableVideo | ai_agents/playground/src/common/graph.ts:557-573 | on and off again restores the nodes if and only if the node had a property object without either key |
| Migration.StepInv | core/include_internal/ten_runtime/connection/migration.h:17-157 | every step of any thread keeps the invariant of the protocol |
| Migration.AtMostOneMessageBeforeDone | core/include_internal/ten_runtime/connection/migration.h:35-38 | in every reachable state before completion at most one message has reached the connection, and no assertion of the runtime trips |
| Migration.MessagesInOrder | core/include_internal/ten_runtime/connection/migration.h:18-40 | delivered, posted and waiting messages together are always MSG 1 to MSG N in order, whatever their kinds, and the engine handles them in that order |
| Migration.HandlersInOrder | core/include_internal/ten_runtime/connection/migration.h:43-62 | the handlers run in the stated order, each at most once, on the stated threads; attached to the engine implies off the orphan list |
| Migration.QuiescentIff | core/include_internal/ten_runtime/connection/migration.h:149-157 | the runtime has nothing to do if and only if all handlers ran and every message reached the engine, or, where MSG 1 is no routed command, if and only if it is stuck behind MSG 1 |
| Migration.CompletesIffRouted | core/src/ten_runtime/connection/connection.c:442-464 | a run that cannot go on has completed the migration if and only if MSG 1 is a routed command; its length is fixed by the number of messages |
| Migration.StuckForever | core/src/ten_runtime/protocol/protocol.c:237-255 | once stuck, no handler runs and no message moves, whatever else arrives |
| Migration.StuckRun | core/src/ten_runtime/connection/connection.c:450-457 | a first message of each other kind leads there from the start; what is no command is handled by nobody |
| MigrationThreads.Runtime.RunNext | core/include_internal/ten_runtime/connection/migration.h:65-157 | a task with its nested calls is a run of the machine |
| MigrationThreads.Runtime.OnMsgs | core/src/ten_runtime/connection/connection.c:412-472 | a first message that is a command goes to the app and starts the migration if it is routed, any other is dropped; a later one goes to the engine; one in between, on the wrong thread or while attached to the engine without a remote is a failure |
| MigrationThreads.Runtime.HandleInMsgs | core/src/ten_runtime/engine/msg_interface/common.c:90-190 | the engine handles the queued commands and gives the connection its remote, and fails if the migration is not done |
| MigrationThreads.Runtime.SendMessage | core/include_internal/ten_runtime/connection/migration.h:21-33 | the first message goes to the app at once, the others to the engine only after completion |
| MigrationThreads.Runtime.Schedule | core/include_internal/ten_runtime/connection/migration.h:17-157 | under any schedule of the threads and any kinds of messages the guarantees above hold of the fields |
| ClosingFlow.StepInv | core/include_internal/ten_runtime/app/close.h:15-74 | every delivery of a request or report keeps the invariant of the flow |
| ClosingFlow.ClosedBottomUp | core/include_internal/ten_runtime/app/close.h:29-41 | a container is closed only after all its descendants, closed implies closing, destroyed implies the whole tree is closed |
| ClosingFlow.ReportsAreExpected | core/src/ten_runtime/connection/connection.c:211-252 | a report in flight is the only one of its resource and its container is not closed yet |
| ClosingFlow.ClosingHasReason | core/src/ten_runtime/remote/remote.c:163-186 | whatever is closing was asked to, or its closing climbed from a resource that was, through propagating containers only |
| ClosingFlow.AskedTreeCloses | core/include_internal/ten_runtime/app/close.h:15-50 | when nothing is left to deliver, everything under an asked resource is closed, within a bounded number of steps |
| ClosingFlow.ClosedIff | core/src/ten_runtime/connection/connection.c:211-252 | once nothing is left to deliver a resource is closed if and only if a request climbs to it or to a container of it |
| ClosingFlow.PropagatesIff | core/src/ten_runtime/remote/remote.c:163-186 | a contained resource that closed by itself takes its container along if and only if that propagates |
| ClosingFlow.NoDeadlock | core/include_internal/ten_runtime/app/close.h:29-41 | while something is in flight some step is possible; once settled an asked root can be destroyed |
| ClosingResources.Resources.Close | core/include_internal/ten_runtime/app/close.h:57-58 | the notification stage tells every live contained resource once and closes at once if there is none; a second call does nothing |
| ClosingResources.Resources.OnClosed | core/src/ten_runtime/connection/connection.c:229-252 | the container goes on closing, starts to close exactly if it propagates, or only notes the report |
| ClosingResources.Resources.Handle | core/include_internal/ten_runtime/app/close.h:52-74 | an event on the flags is exactly one step of the machine, or is refused by both |
| ClosingResources.Resources.Run | core/include_internal/ten_runtime/app/close.h:15-74 | after any events in any order closed containers have only closed descendants, and when all is delivered exactly the resources are closed to which a request climbs or descends |
| WorkerRegistry.LimitsHold | ai_agents/server/internal/http_server.go:233-306 | with at most k handlers in flight, registered workers and those about to be never exceed the limits by more than k - 1, in any interleaving |
| WorkerRuns.WorkersLimitAttained | ai_agents/server/internal/http_server.go:241-306 | for every k and every limit some run with k handlers comes to have k - 1 workers too many |
| WorkerRuns.GraphLimitAttained | ai_agents/server/internal/http_server.go:262-306 | and so for any one limited graph |
| WorkerRuns.WorkersLimitKeptIff | ai_agents/server/internal/http_server.go:241-306 | the limit on all workers is kept in every run if and only if there is at most one handler at a time |
| WorkerRuns.GraphLimitKeptIff | ai_agents/server/internal/http_server.go:262-306 | the limit of a graph is kept in every run if and only if there is at most one handler at a time or the limit on all workers, exceeded by k - 1, is no higher |
| WorkerRegistry.NoInfiniteTimeout | ai_agents/server/internal/http_server.go:295-299 | every registered worker has a positive timeout, so the sweep's infinite branch is never taken |
| WorkerRegistry.RegisteredForRequest | ai_agents/server/internal/http_server.go:291-306 | every registered worker was started for a request of the run and carries its channel, its graph, and its timeout if positive or else the one of the server |
| WorkerRegistry.BlankIsTrimmed | ai_agents/server/internal/http_server.go:246-250 | a channel name is refused exactly if nothing is left of it when it is trimmed |
| WorkerRegistry.OthersUntouched | ai_agents/server/internal/http_server.go:202-344 | no action touches the registration, the lease or the process of a worker it is not about, or the slot of another handler |
| WorkerRegistry.LeaseIsTimeSincePing | ai_agents/server/internal/http_server.go:218-227 | in any run the age of a registered worker's lease is the time since the last ping of its own channel, and it has run out if and only if that exceeds the timeout |
| WorkerRegistry.PingedIsNeverSwept | ai_agents/server/internal/worker.go:300-324 | a registered worker whose channel is pinged at least once in every timeout is never killed by a sweep, in any run from any reachable state |
| WorkerRuns.OverdueCanBeSwept | ai_agents/server/internal/worker.go:300-324 | and a lease that has run out is no protection: the next sweep can kill |
| WorkerRuns.UnpingedCanBeSwept | ai_agents/server/internal/worker.go:300-324 | a worker that nobody pings for longer than its timeout can be swept, whoever else is pinged |
| WorkerRuns.SweepPanicsIff | ai_agents/server/internal/worker.go:302-303 | a visit of the sweep panics if and only if its key, registered when the sweep began, is gone; some step took it out in between |
| WorkerRuns.SweepCanPanic | ai_agents/server/internal/worker.go:196-212 | that is reached from the start, with any number of handlers, by a worker that exits during a sweep |
| WorkerRuns.QuietSweepsNeverPanic | ai_agents/server/internal/worker.go:300-324 | a run in which no name goes that a sweep has still to visit never panics |
| WorkerRegistry.SweepLeavesUnexpired | ai_agents/server/internal/worker.go:300-324 | an uninterrupted sweep whose kills succeed leaves exactly the workers whose lease had not run out |
| WorkerRegistry.RegisteredWhileAlive | ai_agents/server/internal/worker.go:196-212 | if no process is started while anything of an earlier worker on its channel is left, every handed-over running worker is registered |
| WorkerRuns.UncleanStartCanBeLost | ai_agents/server/internal/worker.go:196-212 | otherwise any such start can end with the worker running and unregistered |
| WorkerRuns.LostRun | ai_agents/server/internal/worker.go:196-232 | such an end is reached from the start, by stopping a worker and starting it again |
| AgentServer.Server.HandlerStart | ai_agents/server/internal/http_server.go:233-310 | the response and the file the worker is started with follow from the registry and the rewrite, check by check; success registers one new worker with the request's channel, graph and timeout and a fresh lease, anything else changes nothing; it is a run of the machine |
| AgentServer.Server.HandlerStartRequest | ai_agents/server/internal/http_server.go:233-310 | with the rewrite of the request, a served worker is started with an empty file name if and only if the graph name is empty, the token was not built or there are no predefined graphs |
| AgentServer.Server.CountGraph | ai_agents/server/internal/http_server.go:262-270 | the loop counts the workers of the graph, in any order of the keys |
| AgentServer.Server.HandlerPing | ai_agents/server/internal/http_server.go:202-231 | renews the lease of the channel's worker and of no other |
| AgentServer.Server.HandlerStop | ai_agents/server/internal/http_server.go:312-344 | kills the channel's worker and no other and removes the channel, exactly if the kill succeeds |
| AgentServer.Server.SweepTimeouts | ai_agents/server/internal/worker.go:300-324 | one round kills and removes exactly the expired workers that could be killed, in any order of the keys |
| WorkerPorts.PortCounter.GetHttpServerPort | ai_agents/server/internal/worker.go:75-82 | the call after n others returns 10001 + n mod 20001 |
| WorkerPorts.NthPort | ai_agents/server/internal/worker.go:56-82 | the n-th port, counted from 0, is 10001 + n mod 20001 |
| WorkerPorts.PortsAreDistinct | ai_agents/server/internal/worker.go:56-82 | any 20001 consecutive ports are distinct |
| WorkerPorts.InterleavedPortsInRange | ai_agents/server/internal/worker.go:75-82 | with k callers in flight every port lies in 10000 to 30000 + k, in any interleaving |
| WorkerPorts.PortsDistinctIff | ai_agents/server/internal/worker.go:75-82 | any 20001 ports returned in a row are distinct in every run if and only if at most one caller asks at a time |
| WorkerPorts.HighestPortAttained | ai_agents/server/internal/worker.go:75-82 | with k callers in flight port 30000 + k is returned, for every k from 1 |
| WorkerPorts.LowestPortIff | ai_agents/server/internal/worker.go:75-82 | port 10000 can be returned if and only if there are two callers or more |
| PropertyRewrite.OverlayGraphsTwice | ai_agents/server/internal/http_server.go:573-614 | laying two sets of properties over the graphs in turn is laying their union, the later winning |
| PropertyRewrite.SetMore | ai_agents/server/internal/http_server.go:573-614 | a panic while setting some of the properties means one for all of them, in whatever order |
| PropertyRewrite.AssignSlot | ai_agents/server/internal/http_server.go:578-590 | the loops over graphs and nodes set one property wherever the extension occurs, or panic |
| ProcessProperty.SetProperties | ai_agents/server/internal/http_server.go:573-592 | the result does not depend on the order of the request's maps |
| ProcessProperty.SetStartParameters | ai_agents/server/internal/http_server.go:594-614 | the result does not depend on the order of startPropMap; empty texts set nothing |
| ProcessProperty.SlotHasOneKey | ai_agents/server/internal/config.go:32-50 | no two start parameters write the same property |
| ProcessProperty.SelectedExactly | ai_agents/server/internal/http_server.go:550-557 | exactly the graphs of the name are kept, each as often as it occurred |
| ProcessProperty.SelectedConcat | ai_agents/server/internal/http_server.go:550-557 | and in their order |
| ProcessProperty.SelectGraphs | ai_agents/server/internal/http_server.go:550-557 | the loop computes that selection |
| ProcessProperty.SubstituteGraphs | ai_agents/server/internal/http_server.go:616-678 | every text property of every node is substituted, in any order of the keys, all else stays |
| ProcessProperty.Process | ai_agents/server/internal/http_server.go:492-693 | the whole rewrite equals Rewrite, which has no order, with its five outcomes |
| ProcessProperty.NothingWrittenIff | ai_agents/server/internal/http_server.go:509-548 | there is neither a file nor an error if and only if the file could be read and the graph name is empty, the token was not built or there are no predefined graphs |
| ProcessProperty.StartParametersWin | ai_agents/server/internal/http_server.go:573-614 | a start parameter wins over a property of the request, and no other slot is named |
| ProcessProperty.SlotWritten | ai_agents/server/internal/http_server.go:573-678 | a value laid over a slot is found, with its placeholders replaced, in every node of its extension in the written tree |
| ProcessProperty.StartParametersWritten | ai_agents/server/internal/config.go:32-50 | in the written tree each of the seven start parameters is the request's own channel, user id, bot id, port or token in effect |
| ProcessProperty.RewriteMeaning | ai_agents/server/internal/http_server.go:550-678 | exactly the named graphs remain, started automatically, every property is the laid one with placeholders replaced, nothing else in the tree differs |
| ProcessProperty.PanicsExactly | ai_agents/server/internal/http_server.go:584-610 | it panics if and only if a node that is to get a property has no property object |
| EnvSubstitution.Substitute | ai_agents/server/internal/http_server.go:641-674 | the value is the original text with all occurrences of the last supplied placeholder replaced, or the text itself if none is supplied |
| EnvSubstitution.LastSuppliedWins | ai_agents/server/internal/http_server.go:646-660 | of several supplied matches the last one decides alone |
| EnvSubstitution.MatchesIff | ai_agents/server/internal/http_server.go:617 | the pattern matches exactly where a placeholder of a non-empty name without brace or bar starts |
| EnvSubstitution.FindAllFirst | ai_agents/server/internal/http_server.go:641 | matches are found from the left, each search going on behind the match |
| EnvSubstitution.ReplaceAllFirst | ai_agents/server/internal/http_server.go:659 | occurrences are replaced from the left, what lies before the first is copied |
| EnvSubstitution.UnambiguousIsComplete | ai_agents/server/internal/http_server.go:641-662 | a value with one supplied variable, hidden in no other placeholder, is replaced everywhere |
| EnvSubstitution.CompleteIffUnambiguous | ai_agents/server/internal/http_server.go:641-662 | every supplied placeholder is replaced, for all values, if and only if the text is of that kind |
| LogDecrypt.CompleteEncryptionHeader | core/src/ten_utils/log/encryption.c:43-73 | the buffer ends as two 0xFF bytes, the parity bit, the two length bytes and its old data |
| LogDecrypt.ParseLogHeader | tools/decrypt/decrypt.py:13-52 | accepts exactly headers of two 0xFF bytes whose parity bit is that of their other bits, and returns the length in the last two bytes |
| LogDecrypt.HeaderRoundTrip | core/src/ten_utils/log/encryption.c:43-73 | a written header is valid and names the length modulo 65536 |
| LogDecrypt.DecryptLogFile | tools/decrypt/decrypt.py:112-154 | the read loop ends, its output is Decode of the whole file, and each byte of it is the payload byte of an entry XORed with the keystream byte of its place in that entry |
| LogDecrypt.DecodeByPosition | tools/decrypt/decrypt.py:139-150 | the same for the rest of a file from any position |
| LogDecrypt.XorByteBits | tools/decrypt/decrypt.py:139-150 | a bit of the result is set exactly where the two bytes differ |
| LogDecrypt.DecodeEntry | tools/decrypt/decrypt.py:112-154 | an encoded payload under 65536 bytes is recovered whole, whatever follows |
| LogDecrypt.EntryRoundTripIffShort | core/src/ten_utils/log/encryption.c:59-65 | an entry reads back as written if and only if it is shorter than 65536 bytes |
| LogDecrypt.DecodeNoise | tools/decrypt/decrypt.py:120-130 | bytes in which no position parses as a header do not change the output |
| LogDecrypt.DecodeStream | tools/decrypt/decrypt.py:112-154 | any mixture of entries and noise yields the payloads, in order |
| LogDecrypt.DecodePrefix | tools/decrypt/decrypt.py:112-154 | cutting the file anywhere cuts the output: it is a prefix of the whole output |
| ManifestUpgrade.SectionKeptIff | tools/upgrade/0.8_to_0.10/manifest_json_from_0_8_to_0_10.py:35-84 | one section keeps its attributes and required list if and only if it has no attribute object named "properties" |
| ManifestUpgrade.DeclarationsKeptIff | tools/upgrade/0.8_to_0.10/manifest_json_from_0_8_to_0_10.py:87-178 | the same for every section of the converted api, wherever it is |
| ManifestUpgrade.NewFormatKept | tools/upgrade/0.8_to_0.10/manifest_json_from_0_8_to_0_10.py:61-74 | a section in the new format keeps its meaning; an outer required list is taken only if there is no inner one |
| ManifestUpgrade.EntriesKept | tools/upgrade/0.8_to_0.10/manifest_json_from_0_8_to_0_10.py:133-178 | names, number and order of entries and the interface are kept |
| ManifestUpgrade.ListKept | tools/upgrade/0.8_to_0.10/manifest_json_from_0_8_to_0_10.py:133-178 | every entry of the eight lists stays at its place with its name and what it and its result declare, and gets nothing else |
| ManifestUpgrade.ApiKeys | tools/upgrade/0.8_to_0.10/manifest_json_from_0_8_to_0_10.py:133-178 | the converted api has the property, the interface and the eight lists it had, and nothing else |
| ManifestUpgrade.UpgradedIff | tools/upgrade/0.8_to_0.10/manifest_json_from_0_8_to_0_10.py:181-232 | a file is converted if and only if it has type, name, version and a non-empty api whose lists can be gone through; any other is left alone |
| ManifestUpgrade.UpgradeTwiceIff | tools/upgrade/0.8_to_0.10/manifest_json_from_0_8_to_0_10.py:181-232 | upgrading a file twice equals once if and only if nothing is upgraded or every section settles |
| ManifestUpgrade.RestOfManifestKept | tools/upgrade/0.8_to_0.10/manifest_json_from_0_8_to_0_10.py:181-190 | outside "api" nothing changes, on any input |
| GraphsUpgrade.UpgradeFile | tools/upgrade/0.8_to_0.10/predefined_graphs_aggregate_graph_field.py:53-91 | guard and conversion together have the effect Upgrade, every exception leaving the file alone |
| GraphsUpgrade.IsTarget | tools/upgrade/0.8_to_0.10/predefined_graphs_aggregate_graph_field.py:94-127 | the guard loop stops at the first graph that decides or raises |
| GraphsUpgrade.Aggregate | tools/upgrade/0.8_to_0.10/predefined_graphs_aggregate_graph_field.py:32-48 | popping the five fields one by one moves exactly those present |
| GraphsUpgrade.UpgradesExactly | tools/upgrade/0.8_to_0.10/predefined_graphs_aggregate_graph_field.py:53-127 | a file changes if and only if its graphs are all objects and one has one of the fields |
| GraphsUpgrade.UpgradeTwice | tools/upgrade/0.8_to_0.10/predefined_graphs_aggregate_graph_field.py:53-127 | on every input twice equals once |
| GraphsUpgrade.FieldsMove | tools/upgrade/0.8_to_0.10/predefined_graphs_aggregate_graph_field.py:32-48 | each field moves unchanged, absent ones stay absent, other keys stay |
| GraphsUpgrade.OnlyGraphsChange | tools/upgrade/0.8_to_0.10/predefined_graphs_aggregate_graph_field.py:53-91 | only the predefined graphs of the section "_ten", or else "ten", change, each in its place |
| GraphsUpgrade.UpgradeIsReversibleIff | tools/upgrade/0.8_to_0.10/predefined_graphs_aggregate_graph_field.py:32-50 | spreading the fields out again restores an upgraded file if and only if no graph had a "graph" |
| GraphsUpgrade.SameUpgradeIff | tools/upgrade/0.8_to_0.10/predefined_graphs_aggregate_graph_field.py:32-50 | two files that are upgraded become the same if and only if they differ in nothing but the "graph" of their graphs |
| GraphsUpgrade.UpgradeLosesIff | tools/upgrade/0.8_to_0.10/predefined_graphs_aggregate_graph_field.py:32-50 | a file is the only one without "graph" keys that has its upgrade if and only if it has none itself |
| HttpBody.Handler.Handle | ai_agents/esp32-client/main/ai_agent.c:105-185 | an event on the buffer has the effect Next, what is behind the body stays zero, a null buffer has length 0 |
| HttpBody.Handler.Run | ai_agents/esp32-client/main/ai_agent.c:105-185 | over any events the parser gets what Parsed says |
| HttpBody.SplitDoesNotMatter | ai_agents/esp32-client/main/ai_agent.c:124-158 | however a body is split, with chunked parts and notices in between and with failing allocations, the buffer holds the first bytes of what is not chunked, from the first part there was memory for, up to the content length |
| HttpBody.ResponsesNeverMix | ai_agents/esp32-client/main/ai_agent.c:105-180 | over any sequence of finished and broken responses, chunked or not, each finished one is parsed once, with its own body |

## Left out

- Typed list: signatures, front/back/size accessors, create/destroy of lists, set_data (so that the data of a node is constant) and the construct, move and in-place pushes; the copy callback is a function and memory never runs out.
- Graph editor: updateNode, the setter of the shared app, and the order of keys inside a connection; nested objects are updated functionally, so aliasing of an item or destination held elsewhere is not modelled.
- GraphModel.AddEdgeIsUnion: says nothing of whether the endpoints are nodes, because addConnection does not check it.
- Migration: an engine that is not found (which resets the state), an app without a thread per engine (which needs no migration), a close_app command as first message (which ends the migration at once), a duplicate start_graph, and commands that the engine puts back until it is ready; a call within a thread is a step of its own, which only adds interleavings.
- Migration: the integrated protocol relies on its stream being frozen until the migration is done, so on a stuck connection its next input fails the assertion at protocol_integrated.c:110; the model is of a protocol that queues its input, as the header demands.
- Closing flow: resources created while the tree is closing, and the freeing of single resources before the top-level destroy. The flag that says whether a container closes along is per container, as for connections and remotes; an app, which closes itself when its last engine closes unless it is long-running, and an engine, which closes on a non-weak remote only and by a posted task, are outside it. Tasks and timers that keep an engine busy are contained resources like others.
- Worker registry: process output, update requests, CleanWorkers, and JSON binding; starting and killing a process succeed or fail as an input, and a killed worker's process group is the worker.
- WorkerRegistry.LimitsHold: takes the loop that counts a graph's workers as one access, so that its look-ups cannot panic.
- Worker registry: a ping and a stop take the look-up of the key and the access to the worker as one, which leaves out the panic of a key that goes in between, and a visit of the sweep takes the look-up, the check and the kill as one.
- WorkerRegistry: blank channel names are those of spaces, tabs and line ends; other Unicode white space is not included.
- Ports: 32-bit overflow of the counter, which the wrap at 30001 keeps out of reach.
- Property rewrite: the text of the file and its writing (which can fail), how a token is built (the builder's result is an input), logging, and the lookup of system variables, which the code only logs; the nested maps are values, and what is shared between a request and the tree is not modelled.
- Log decryption: AES itself, which is any function from positions to bytes that is XORed in and starts at position 0 for each entry; progress output and the command line.
- Upgraders: the search for files, backups, dry runs and the order of keys in an object.
- HTTP body: the user_data branch, which no client of the file uses (its comment promises to keep the last byte free, the code fills it), content lengths that are negative or overflow int, and the parsing of the body.
- Declaration-only headers, the React pages, protobuf schemas, example extensions and the audio, video and Wi-Fi code: there is no logic in them that these models would need.
