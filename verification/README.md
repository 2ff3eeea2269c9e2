# A verified model of muxagent's core

muxagent runs coding agents for a user. This project models the parts of it in which state, order and
concurrency matter, and proves what they keep:

* the **workflow engine**: a task is a graph whose completed runs send arrivals along conditional edges; joins wait for
  started predecessors, and iteration limits turn transitions into blocked steps (`ConfigValues`, `TaskConfig`,
  `EdgeEvaluation`, `TaskRuns`, `TaskEngine`, `EngineObject`, `EngineProofs`, `TaskSchedule`, `ScheduleProofs`,
  `BlockedSteps`, `BlockedStepProofs`, `ReplayUnique`, `ReplayOutcomes`, `ListedSteps`,
  `BackdatedHistory`; `ConfigMeaning` says what a configuration must be);
* the **event replay log**: a ring buffer with a count limit and a byte limit, the broker that publishes from it, and the
  proxy that reconnects with a cursor (`EventLog`, `EventBuffer`, `EventStream`, `EventStreamProofs`, `EventDelivery`,
  `EventBroker`);
* the **relay session protocol**: two locks, a connection epoch, an installed and an active session (`RelayLink`,
  `RelayRuns`);
* the **outgoing channel** of a connection and its shutdown, with any number of senders (`OutgoingChannel`);
* the **codecs and merges**: Content-Length framing, git's porcelain v2 output, paged file lists, and the merge of two event
  histories (`Framing`, `FramingProofs`, `Porcelain`, `PorcelainProofs`, `GitPages`, `HistoryMerge`); `Ordering` holds the
  stable sort that several of them use, `Options` and `Words` what several modules share.

Code that updates objects in place is modelled by classes and loops (`EventBuffer`, `LocalEventBroker`, `Subscriber`,
`ChatEventProxy`, `Client`, `ConnectionSession`, `Engine`, `FrameReader`, `Session`), and each method is proved against a
value-level specification. The theorems over whole runs are about sequences of such values, one step per critical section.

`dafny verify dfyconfig.toml` checks everything.

## What is found out about the code

* A replay can answer `ok` and yet miss events: when the newest event alone exceeds the byte budget the buffer is empty, and
  an empty buffer answers `ok` (`OkCanLoseEvents`). `OkIsCompleteIff` gives the exact condition, in terms of that event's size.
* A subscriber never gets an event twice, but it can miss one when two senders publish out of the order in which they pushed:
  `OutOfOrderMisses` is such a run, and `MissedStays` says that the event is lost for good. `DeliveredIff` says which events
  get through, and in-order publishing makes the stream contiguous.
* The relay client's locks alone do not keep a message behind the acknowledgement of its own session: two overlapping session
  inits break it (`LocksAloneAreNotEnough`). The read loop handles inits one at a time, and then every run keeps it.
* The join compares only the number of senders with the number of started predecessors. In every reachable state this is the
  same as comparing the sets (`JoinAllFiresWhenAllArrived`).
* A human node's result may leave out the field that its edges branch on: `HumanChoiceFails` has a validated configuration and
  an accepted result that finds no edge, and `FailsIff` the exact condition. Agents' results always find one.
* A frame that breaks off before the first byte of its payload reads like the end of the stream, which the server takes for an
  orderly one; only a payload of which something came is reported (`BrokenOffFrame`, `OneByteReadsAsTheEnd`).
* The bridge loses complete frames that arrive in the same chunk as a broken header behind them (`FrameLostOrNot`). What it
  passes on depends on the bytes alone, and not on their chunks, exactly if no header is broken or no frame is complete before
  the broken one (`CutsDoNotMatterIff`).
* The porcelain parser panics exactly on a record that is one byte long where its kind calls for fields (`PanicsIff`).
* Blocked steps derived from a history can depend on the order of a map, and this shows exactly if some completion, replayed in
  the order of the start stamps, refuses two groups at one node of which a step is still open at the end (`DeterminedIff`). It
  takes no broken history: in `StampsCanDecide` every run was set off by a run of the history along an edge, and only the clock
  was set back between a run and its children. With parents before their children it cannot happen (`StepsAreUnique`).
* The read loop can wait forever to reply: when the channel is full and the writer leaves on a failed write, nothing makes room
  any more and the loop never reaches its shutdown (`StuckIsReachable`, `StuckForGood`). Once begun, a shutdown does not hang.

## Model

| member | source | states |
|---|---|---|
| EventLog.Limits.RetainedIsLongest | cli/internal/agentchat/eventbuf.go:66-94 | what is kept is a suffix of the push log that fits both limits, and every longer suffix breaks one |
| EventLog.Limits.LongestFittingAppend | cli/internal/agentchat/eventbuf.go:77-91 | the longest fitting suffix after a push is that of the old one with the new event: nothing dropped earlier comes back |
| EventLog.Limits.EmptyIffNewestTooBig | cli/internal/agentchat/eventbuf.go:87-91 | after a push the buffer is empty exactly when the newest event alone exceeds the byte budget |
| EventLog.Limits.NoMoreThanBytes | cli/internal/agentchat/eventbuf.go:66-94 | an event without an encoding still takes a byte, so no more events are kept than bytes are allowed |
| EventLog.Limits.EncodedFits | cli/internal/agentchat/eventbuf.go:66-94 | events whose encodings fit the budget together are all kept, as far as the count allows |
| EventLog.LogView.OkIsCompleteIff | cli/internal/agentchat/eventbuf.go:199-241 | an `ok` replay holds every event after the cursor if and only if the cursor is at the end or the newest event alone is within the byte budget |
| EventLog.LogView.OkIsCompleteIfKept | cli/internal/agentchat/eventbuf.go:199-241 | the same for any number of forgotten events: something is kept or the cursor is at the end |
| EventLog.LogView.StatusIff | cli/internal/agentchat/eventbuf.go:199-241 | when the answer is reset, gap or ok, each as a condition on epoch, cursor and what is kept, with the events it carries |
| EventLog.LogView.OkCanLoseEvents | cli/internal/agentchat/eventbuf.go:219-221 | after one push of an event over the byte budget, the replay from the start answers `ok` with nothing |
| EventBuffer.EventBuffer.Push | cli/internal/agentchat/eventbuf.go:66-94 | the event gets the next number, is appended to the log, and the ring again holds the longest suffix that fits |
| EventBuffer.EventBuffer.DropOldest | cli/internal/agentchat/eventbuf.go:243-255 | exactly the oldest event goes, and the byte count stays the sum of the kept sizes |
| EventBuffer.EventBuffer.SnapshotAll | cli/internal/agentchat/eventbuf.go:185-197 | the kept events, oldest first |
| EventBuffer.EventBuffer.ReplaySince | cli/internal/agentchat/eventbuf.go:199-241 | the ring's answer is the one that the plain log gives |
| EventBuffer.EventBuffer.ReplaySincePage | cli/internal/agentchat/eventbuf.go:105-153 | the page is a prefix of the answer, within the limits or a single event, cut only where the next event would not fit |
| EventBuffer.EventBuffer.Reset | cli/internal/agentchat/eventbuf.go:156-169 | an empty log under a new epoch that is not zero |
| EventBuffer.JsonSafeEpoch | cli/internal/agentchat/eventbuf.go:268-274 | an epoch is the random value's low 53 bits, and one where they are all zero |
| EventBuffer.NextPageAnswersTheRest | cli/internal/agentchat/eventbuf.go:105-153 | asking again from a page's cursor answers exactly what the page left over |
| EventBuffer.PagesConcatenate | cli/internal/agentchat/eventbuf.go:105-153 | followed page by page the events are those of the one-shot replay, from ok, gap and reset alike, and the following ends |
| EventBuffer.PageIsFull | cli/internal/agentchat/eventbuf.go:105-153 | a page keeps to the allowed events and bytes, a single larger event apart, and ends only where one more would break a limit |
| EventStreamProofs.RunKeepsInv | cli/internal/daemon/agentchat_local.go:120-211 | the invariant of log, subscriptions and proxy holds after every interleaving of steps |
| EventStreamProofs.SubscriberSeesNoDuplicate | cli/internal/daemon/agentchat_local.go:132-174 | in every interleaving a subscription's snapshot and channel together have strictly increasing numbers |
| EventStreamProofs.SubscriberSeesContiguousLog | cli/internal/daemon/agentchat_local.go:132-211 | with in-order publishing, snapshot and channel are one contiguous stretch of the log |
| EventStreamProofs.ProxyForwardsEachOnce | cli/internal/appserver/agentchat_proxy.go:238-269 | over any disconnects and reconnects the forwarded events have strictly increasing numbers and are the log's own |
| EventStreamProofs.ProxyForwardsEverythingIff | cli/internal/appserver/agentchat_proxy.go:238-269 | with in-order publishing, the client has the whole log up to its cursor if and only if every replay covered its cursor |
| EventStreamProofs.FaithfulStream | cli/internal/appserver/agentchat_proxy.go:248-263 | a stream falls short of the log up to its cursor by exactly the numbers it jumped over |
| EventStreamProofs.DeliveredIff | cli/internal/daemon/agentchat_local.go:157-174 | published in any order to a subscriber with room, an event arrives exactly when it is above the subscriber's cursor and above everything published before it |
| EventStreamProofs.OutOfOrderMisses | cli/internal/daemon/agentchat_local.go:132-174 | from any initial state, a run of one subscription, two pushes and two publications in the other order, whose open subscriber misses the first event |
| EventStreamProofs.MissedStays | cli/internal/daemon/agentchat_local.go:157-174 | whatever step follows, an event so missed stays missed while the subscription is open |
| EventStreamProofs.OfferedState | cli/internal/daemon/agentchat_local.go:157-174 | what a subscription holds after a series of offers |
| EventDelivery.OfferLiveIs | cli/internal/daemon/agentchat_local.go:176-189 | a live event goes on a channel with room and leaves the cursor alone, and a full channel is closed |
| EventDelivery.ChannelHolds | cli/internal/daemon/agentchat_local.go:157-189 | in every run a channel holds, live and buffered in the order of publication, exactly the events that concerned its subscription while it was open and had room |
| EventDelivery.OpenIffNotEnded | cli/internal/daemon/agentchat_local.go:157-211 | in every run a subscription is open exactly until it is removed or an event that concerns it finds its channel full |
| EventDelivery.ForwardsTheStream | cli/internal/appserver/agentchat_proxy.go:238-263 | since it connected, the proxy has forwarded the replay and then, live ones included, the events taken from the channel |
| EventBroker.LocalEventBroker.Subscribe | cli/internal/daemon/agentchat_local.go:120-155 | the new subscription starts with the buffer's replay and its cursor |
| EventBroker.LocalEventBroker.PublishBuffered | cli/internal/daemon/agentchat_local.go:157-174 | every subscription takes the step of the value model, and those whose channel is full are closed and removed |
| EventBroker.LocalEventBroker.PublishLive | cli/internal/daemon/agentchat_local.go:176-189 | the same for events without a number |
| EventBroker.LocalEventBroker.Remove | cli/internal/daemon/agentchat_local.go:191-199 | removing closes the channel once and leaves the other subscriptions alone |
| EventBroker.LocalEventBroker.DropSubscriber | cli/internal/daemon/agentchat_local.go:201-211 | the drop of one subscription, counted |
| EventBroker.ChatEventProxy.ReadStream | cli/internal/appserver/agentchat_proxy.go:248-263 | the loop forwards every item and moves the cursor as the value model does |
| RelayLink.Client.DetachActiveConnection | cli/internal/relayws/client.go:691-704 | the connection and both sessions are gone and the epoch has moved on |
| RelayLink.Client.PublishActiveConnection | cli/internal/relayws/client.go:706-718 | a new connection under a new epoch, without sessions |
| RelayLink.Client.InstallSession | cli/internal/relayws/client.go:720-738 | the session is installed only in its own epoch on a live connection, and deactivates the active one |
| RelayLink.Client.ActivateAfterAck | cli/internal/relayws/client.go:806-820 | the session becomes active only if it is still the installed one of the same connection and epoch |
| RelayLink.Client.HandleSessionEnd | cli/internal/relayws/client.go:618-631 | a session end counts only for its own machine and epoch |
| RelayLink.Client.ReadForReply | cli/internal/relayws/client.go:885-911 | a reply may be written only for the active session of the current epoch |
| RelayLink.Client.RecheckBeforeWrite | cli/internal/relayws/client.go:844-865 | an event may be written only if connection, epoch and active session are those it was encrypted for |
| RelayRuns.RunKeepsInv | cli/internal/relayws/client.go:697-912 | every interleaving keeps: the active session is installed, of the current epoch, on a live connection, and acknowledged |
| RelayRuns.MessagesFollowTheirAck | cli/internal/relayws/client.go:781-912 | every encrypted message on a wire belongs to that connection's epoch, and the last acknowledgement before it is its session's |
| RelayRuns.WrittenUnderLiveSession | cli/internal/relayws/client.go:618-631 | a message is written only under a session that was activated behind its ack and has since been neither ended nor cut off by a detached or replaced connection |
| RelayRuns.WrittenAfterCheck | cli/internal/relayws/client.go:828-911 | a message is written only if its session was still the active one on its connection when that was checked behind building it |
| RelayRuns.SilentAfterEnd | cli/internal/relayws/client.go:618-631 | after the client has ended the session nothing is active, and nothing encrypted goes out on any wire until another ack has been activated |
| RelayRuns.OtherEpochEndsNothing | cli/internal/relayws/client.go:625-627 | a session end of another epoch changes nothing |
| RelayRuns.FailedAckLeavesNothing | cli/internal/relayws/client.go:799-804 | after a failed write of its ack a session is neither installed nor active |
| RelayRuns.ReplyRound | cli/internal/relayws/client.go:885-911 | a reply for the active session of the current epoch is written |
| RelayRuns.DetachedWireIsFrozen | cli/internal/relayws/client.go:691-718 | once a connection has been replaced or detached, nothing is ever written to it again |
| RelayRuns.StepKeepsEpochs | cli/internal/relayws/client.go:706-718 | a connection has one epoch for good, its wire only grows, and only while it is the current one |
| RelayRuns.LocksAloneAreNotEnough | cli/internal/relayws/client.go:781-821 | with two overlapping session inits, which the locks allow, a message follows the other session's acknowledgement |
| RelayRuns.LocksAllowOverlap | cli/internal/relayws/client.go:681-689 | the locks permit two installed sessions whose inits have not finished |
| OutgoingChannel.RunKeepsInv | cli/internal/appserver/server.go:1619-1668 | the invariant of flag, wait group and channel holds in every interleaving |
| OutgoingChannel.ClosedOnceAndLast | cli/internal/appserver/server.go:1619-1668 | the channel is closed at most once and nothing is sent after that |
| OutgoingChannel.ClosedWithNobodySending | cli/internal/appserver/server.go:1656-1667 | when the channel is closed no sender is in flight |
| OutgoingChannel.LeftIffItLeaves | cli/internal/appserver/server.go:267-296 | in every run the read loop has left exactly if a message ended it, there was nothing to read, or it found the writer gone, and then it neither reads nor replies |
| OutgoingChannel.WaitMakesProgress | cli/internal/appserver/server.go:1661-1664 | once a closer waits, every registered sender can finish without the channel's reader and no new one can register |
| OutgoingChannel.WaitEnds | cli/internal/appserver/server.go:1664-1667 | the waiting call can go on to close exactly when no sender is left |
| OutgoingChannel.ReplyGetsThroughIff | cli/internal/appserver/server.go:236-247 | a reply gets through at once or after the writer's next steps if and only if the loop is not stuck: channel full and writer gone |
| OutgoingChannel.StuckIsReachable | cli/internal/appserver/server.go:1606-1609 | a run in which 256 notifications fill the channel, the read loop waits to reply, and the writer's write fails |
| OutgoingChannel.StuckForGood | cli/internal/appserver/server.go:236-264 | whatever happens then, cancelling included, the loop stays stuck and the session is never closed |
| OutgoingChannel.ConnectionSession.BeginSend | cli/internal/appserver/server.go:1623-1631 | a sender is registered exactly if the session is not closed |
| OutgoingChannel.ConnectionSession.BeginClose | cli/internal/appserver/server.go:1651-1659 | only the first closer gets to close |
| OutgoingChannel.ConnectionSession.CancelContext | cli/internal/appserver/server.go:1661-1663 | cancelling lets every registered sender leave without room in the channel |
| ConfigValues.ValuesEqualIsKeyEquality | cli/internal/taskconfig/schema_validate.go:103-115 | two values are equal exactly when both have the same comparison key; the JSON fallback never decides |
| ConfigValues.ValuesEqualIff | cli/internal/taskconfig/config.go:816-866 | values are equal exactly when they are the same finite value, numbers compared as numbers, whole floats beyond 64 bits apart |
| ConfigValues.ScalarAcceptedIff | cli/internal/taskconfig/schema_validate.go:12-101 | which scalars a schema accepts, by type and enumeration |
| ConfigValues.ArrayAcceptedIff | cli/internal/taskconfig/schema_validate.go:12-101 | which arrays a schema accepts |
| ConfigValues.ObjectAcceptedIff | cli/internal/taskconfig/schema_validate.go:12-101 | which objects a schema accepts: the keys required, the keys allowed, and their values |
| ConfigValues.AlternativeAcceptedIff | cli/internal/taskconfig/schema_validate.go:12-101 | a schema with alternatives accepts what one of them accepts |
| ConfigValues.ValidateValue | cli/internal/taskconfig/schema_validate.go:12-101 | the recursive check accepts exactly the values that the schema describes |
| ConfigValues.ValidateObject | cli/internal/taskconfig/schema_validate.go:12-101 | the object case: required keys, known keys and closed objects |
| ConfigValues.ValidateArray | cli/internal/taskconfig/schema_validate.go:12-101 | the array case: bounds and items |
| TaskConfig.ValidateEdgeGroup | cli/internal/taskconfig/config.go:654-722 | a group passes exactly if its conditions are of one kind, one field, typed, distinct and exhaustive |
| TaskConfig.AddEdgeAccepts | cli/internal/taskconfig/config.go:661-700 | an edge that the loop takes leaves the group consistent and the accumulated state its description |
| TaskConfig.AddEdgeRejects | cli/internal/taskconfig/config.go:661-700 | an edge that the loop refuses makes the group inconsistent |
| TaskConfig.Validate | cli/internal/taskconfig/config.go:277-389 | the whole check passes exactly on the configurations that meet all its conditions |
| ConfigMeaning.HeaderOkIff | cli/internal/taskconfig/config.go:277-300 | the numbers of a configuration that are refused |
| ConfigMeaning.NodesOkIff | cli/internal/taskconfig/config.go:277-389 | nodes pass exactly if their names are non-empty and all different, their joins known and their limits not negative |
| ConfigMeaning.DefinitionOkIff | cli/internal/taskconfig/config.go:277-389 | what a definition of each type must have and must not have |
| ConfigMeaning.AgentResultIsExact | cli/internal/taskconfig/config.go:472-518 | a result that an agent's schema accepts has exactly the schema's keys, at every level |
| ConfigMeaning.EdgesOkIff | cli/internal/taskconfig/config.go:724-734 | edges pass exactly if they join declared nodes, compare with finite values, and no two say the same |
| ConfigMeaning.WhenEdgeOkIff | cli/internal/taskconfig/config.go:654-722 | a when edge names a scalar property of the form and a finite value of its type |
| ConfigMeaning.JoinsOkIff | cli/internal/taskconfig/config.go:277-389 | a node that declares a join has at least two edges into it |
| ConfigMeaning.TerminalsOkIff | cli/internal/taskconfig/config.go:277-389 | some node ends the task, no edge leaves such a node, and one leaves every agent |
| EdgeEvaluation.EvaluateEdges | cli/internal/taskengine/engine.go:212-260 | the loops give the hops of all unconditional edges, or of the matching ones, or of the else edge, or fail |
| EdgeEvaluation.MatchFires | cli/internal/taskengine/engine.go:236-252 | the edge whose condition the result meets is the only one to fire, else edge or not |
| EdgeEvaluation.ElseFires | cli/internal/taskengine/engine.go:253-258 | where no condition is met, the else edge fires alone |
| EdgeEvaluation.NoneFires | cli/internal/taskengine/engine.go:259 | where no condition is met and there is no else edge, evaluation fails |
| EdgeEvaluation.AllEdgesFire | cli/internal/taskengine/engine.go:223-233 | on an unconditional group every edge fires, in order |
| EdgeEvaluation.ConditionalFiresAtMostOne | cli/internal/taskconfig/config.go:654-722 | on an accepted conditional group no result at all makes two edges fire |
| EdgeEvaluation.CoveredValueMatches | cli/internal/taskconfig/config.go:779-814 | a value that the field's schema accepts equals one of the branches of an exhaustive group |
| EdgeEvaluation.FailsIff | cli/internal/taskengine/engine.go:212-260 | an accepted result finds no edge if and only if there is no else edge and the branch field is left out |
| EdgeEvaluation.HumanChoiceFails | cli/internal/taskengine/engine.go:212-260 | a validated configuration with a human node and an accepted result, empty, on which evaluation fails |
| EdgeEvaluation.ValidatedAgentEvaluates | cli/internal/taskconfig/config.go:472-518 | for an agent of a validated configuration evaluation never fails, and a conditional group fires exactly one edge |
| EdgeEvaluation.HopsHaveDistinctTargets | cli/internal/taskconfig/config.go:724-734 | no run sends two arrivals to the same node |
| TaskRuns.CountIterations | cli/internal/taskdomain/retry.go:50-58 | the loop counts the runs of the node |
| TaskRuns.MaxIterationsForNode | cli/internal/taskdomain/retry.go:60-68 | the first positive limit of the node's own, and the topology's otherwise |
| TaskRuns.CheckFinished | cli/internal/taskengine/engine.go:299-316 | nothing runs or waits, no failure is open, and a node without outgoing edges is done |
| EngineObject.Engine.RegisterRun | cli/internal/taskengine/engine.go:80-92 | the run has the token, its node has started under it, and nothing else changes |
| EngineObject.Engine.RegisterTriggeredRun | cli/internal/taskengine/engine.go:70-78 | a triggered run takes its parent's token |
| EngineObject.Engine.GroupReady | cli/internal/taskengine/engine.go:157-172 | the code's decision is the readiness of the specification |
| EngineObject.Engine.ConsumeNode | cli/internal/taskengine/engine.go:150-198 | at one node exactly the ready groups are used up, each with one transition, whatever the order of the groups |
| EngineObject.Engine.ConsumeReady | cli/internal/taskengine/engine.go:143-200 | over all nodes exactly the ready groups are used up, their transitions listed once each in the order of the nodes |
| EngineObject.Engine.ResolveCompletion | cli/internal/taskengine/engine.go:94-141 | a completion either fails and changes nothing, or adds its arrivals, uses up what is ready and parts it by the limits |
| EngineProofs.ArrivalsAreConserved | cli/internal/taskengine/engine.go:116-139 | at every node, old arrivals plus new ones are those used up by transitions and blocks plus those that still wait |
| EngineProofs.EachGroupResolvesOnce | cli/internal/taskengine/engine.go:125-138 | a ready group becomes exactly one transition or one block, by its node's limit; no other group becomes any |
| EngineProofs.NothingReadyStays | cli/internal/taskengine/engine.go:143-200 | no ready group is left behind |
| EngineProofs.WaitingGroupsStay | cli/internal/taskengine/engine.go:187-196 | a group that is not ready waits on unchanged |
| EngineProofs.EngineRunKeepsInv | cli/internal/taskengine/engine.go:64-139 | in every reachable state each pending arrival comes along an edge from a node started under its token |
| EngineProofs.JoinAllFiresWhenAllArrived | cli/internal/taskengine/engine.go:157-172 | in every run, a node declared to wait for all, or declaring nothing, that has not started is set off exactly when the senders are the started predecessors |
| EngineProofs.AnyArrivalFires | cli/internal/taskengine/engine.go:157-172 | a node declared to wait for any, and a node that has started under the token, is set off exactly if an arrival waits |
| EngineProofs.TriggeredByTheFirst | cli/internal/taskengine/engine.go:176-186 | a transition's trigger is the arrival that has waited longest under its token |
| EngineProofs.ArrivesAtTargets | cli/internal/taskengine/engine.go:108-123 | a completion adds one arrival under its token behind those that wait at each hop's target, and none elsewhere |
| EngineProofs.BlockedIffAtLimit | cli/internal/taskengine/engine.go:125-138 | a ready group is blocked exactly if as many runs of its node are saved as the declared limit |
| EngineProofs.TaskDoneIff | cli/internal/taskengine/engine.go:139-140 | the task is done exactly if nothing was set off or waits, all runs are done or failed, the failed ones retried, and an end is done |
| EngineProofs.EdgesFromIsFilter | cli/internal/taskengine/engine.go:201-210 | the outgoing edges are the declared ones that leave the node, in their order |
| ScheduleProofs.RebuildIsNothing | cli/internal/taskruntime/runtime.go:554-568 | registering all saved runs again changes nothing on a live engine with one entry run |
| ScheduleProofs.ScheduleKeepsInv | cli/internal/taskruntime/node_runner.go:343-382 | in every schedule all runs and arrivals carry the entry run's token, and the limits hold |
| ScheduleProofs.IterationsStayWithinLimit | cli/internal/taskdomain/retry.go:50-68 | no schedule gives a node more runs than its limit and its forced runs together |
| ScheduleProofs.AgentCompletionsResolve | cli/internal/taskruntime/node_runner.go:203-224 | in a schedule of a validated configuration resolving an agent's completion never fails |
| ScheduleProofs.StepMeasure | cli/internal/taskruntime/node_runner.go:343-382 | every step but an answer or a forced one lowers the measure of remaining iterations and unfinished runs |
| ScheduleProofs.SchedulesEnd | cli/internal/taskengine/engine.go:126-138 | every schedule is at most four times the sum of the limits long, plus two for each answer and four for each forced step |
| ScheduleProofs.NewRunStatus | cli/internal/taskruntime/node_runner.go:365-382 | how a new run begins, by the type of its node |
| ScheduleProofs.ResolvingStartsOneEach | cli/internal/taskruntime/node_runner.go:365-382 | resolving a completion saves one new run for each transition, of its node and with its trigger, and no other |
| ScheduleProofs.GoesOnUnlessFinished | cli/internal/taskruntime/node_runner.go:343-382 | a schedule can go on without retries and forced steps until every run is done or failed and every completion resolved |
| BlockedSteps.RaiseBlocked | cli/internal/taskengine/engine.go:360-379 | the loop files each block under its key, numbered after the node's runs and earlier blocks |
| BlockedSteps.ReplayRun | cli/internal/taskengine/engine.go:338-379 | one replayed run clears, registers and resolves as the replay relation says, and fails exactly on a run without a matching edge |
| BlockedSteps.DeriveBlockedSteps | cli/internal/taskengine/engine.go:318-398 | the result is that of a replay of the sorted history, or none if a run cannot be resolved |
| BlockedStepProofs.InputOrderDoesNotMatter | cli/internal/taskengine/engine.go:318-330 | the same runs in another order have the same results |
| BlockedStepProofs.ListedIffRaisedAndNotCleared | cli/internal/taskengine/engine.go:338-388 | a step is listed if and only if a run raised it and no later run cleared it |
| ListedSteps.ListedIff | cli/internal/taskengine/engine.go:338-388 | a step of a node after a run is listed exactly if a completion refused a group that the run set off first, and no later run of the node continued it, forced or not, or retried the latest failed run that records it |
| ListedSteps.ListedStepSays | cli/internal/taskengine/engine.go:360-379 | a listed step has the trigger of a refused group, the time of the completion that refused it, and a number behind the node's runs so far |
| BlockedStepProofs.StepLeIff | cli/internal/taskengine/engine.go:389-396 | the list's order: time of the completion, then source and node |
| BlockedStepProofs.RunLeIff | cli/internal/taskengine/engine.go:322-327 | the replay's order: start stamp, then id |
| BlockedStepProofs.ListedOnceInOrder | cli/internal/taskengine/engine.go:381-397 | the steps are sorted, and no source run and target is listed twice |
| BlockedStepProofs.KeyIsInjective | cli/internal/taskengine/engine.go:407-409 | keys of run ids without an arrow head tell sources and nodes apart |
| ReplayUnique.StepsAreUnique | cli/internal/taskengine/engine.go:318-398 | with one entry run and parents before their children, neither the input order nor the map order changes the steps, whatever the names of runs and nodes |
| ReplayOutcomes.DeterminedIff | cli/internal/taskengine/engine.go:318-398 | the derived steps do not depend on the map order if and only if no completion of the sorted history refuses two groups at one node of which a step is never cleared |
| ReplayOutcomes.OpenPersists | cli/internal/taskengine/engine.go:338-379 | from any point on the replay can go on, and a step that is open and never cleared stays as it was raised |
| BackdatedHistory.StampsCanDecide | cli/internal/taskengine/engine.go:318-398 | a validated configuration and a history with one entry run, distinct ids and every trigger in place along an edge, from which two different lists of steps can be derived |
| ReplayUnique.ListedBeyondLimit | cli/internal/taskengine/engine.go:362-365 | the iteration that a listed step would start exceeds its node's limit |
| Framing.FrameReader.ReadFrame | cli/internal/appserver/framing.go:22-60 | the loop reads what the specification reads, and leaves what it leaves: a payload, the end of the stream, a payload cut short, a malformed frame, or a panic on a length that cannot be allocated |
| Framing.Session.ExtractFrames | desktop/scripts/dev-bridge.ts:55-96 | the loop keeps what the specification keeps of the buffer and the chunk, and returns the frames unless it throws |
| Framing.Session.HandleOutput | desktop/scripts/dev-bridge.ts:114-130 | chunk by chunk the handler passes on what the calls return, until one throws and the session is destroyed |
| Framing.HeaderLength | desktop/scripts/dev-bridge.ts:65-80 | the last Content-Length line counts, and one that is no number or negative is an error |
| FramingProofs.EncodedText | cli/internal/appserver/framing.go:78-90 | a frame as it stands on the wire |
| FramingProofs.LengthLineCounts | cli/internal/appserver/framing.go:41-50 | a length line in any case of letters, with any blanks, sets the length for server and bridge whatever came before |
| FramingProofs.OtherLines | desktop/scripts/dev-bridge.ts:66-71 | a line of another name is ignored, and one without a colon is an error for the server |
| FramingProofs.LineFeedEnds | cli/internal/appserver/framing.go:24-41 | the server takes header lines that end in a line feed alone |
| FramingProofs.ReadByLength | cli/internal/appserver/framing.go:51-58 | without a length or with a negative one the server fails, with one beyond 2^48 it panics, and otherwise it reads as many bytes, if there are |
| FramingProofs.SignedNumber | cli/internal/appserver/framing.go:44-49 | server and bridge take a number with a sign; one that 64 bits do not hold is an error for the server |
| FramingProofs.TooLarge | cli/internal/appserver/framing.go:44-49 | so is one without a sign; the bridge takes it |
| FramingProofs.NumbersAreReadDifferently | cli/internal/appserver/framing.go:46-49 | a number with something behind it is an error for the server, and its digits count for the bridge |
| FramingProofs.StreamRoundTrip | cli/internal/appserver/framing.go:78-90 | repeated reading returns exactly the payloads written, in order, and then the end of the stream |
| FramingProofs.BrokenOffFrame | cli/internal/appserver/framing.go:22-60 | a frame cut anywhere never reads as a payload: it reads as the end of the stream if the cut is at or before the end of its header, and as a payload cut short otherwise |
| FramingProofs.OneByteReadsAsTheEnd | cli/internal/appserver/framing.go:25-31 | one byte of a frame reads like an empty stream |
| FramingProofs.StreamBrokenOff | cli/internal/appserver/server.go:276-282 | of a stream whose last frame breaks off, every frame before it is read, and then the end or a payload cut short |
| FramingProofs.EmitIsExtract | desktop/scripts/dev-bridge.ts:55-130 | however any bytes are cut into chunks: the session is destroyed exactly if the bytes hold a broken header, and if not it has passed on and keeps what one extraction of all the bytes gives |
| FramingProofs.DestroyedEmits | desktop/scripts/dev-bridge.ts:114-130 | a destroyed session has passed on exactly the frames complete before the chunk that completes the broken header |
| FramingProofs.DestroyingChunk | desktop/scripts/dev-bridge.ts:114-130 | every destroyed session has such a chunk |
| FramingProofs.CutsDoNotMatterIff | desktop/scripts/dev-bridge.ts:55-130 | all ways to cut the bytes into chunks pass on the same if and only if no header is broken or no frame is complete before the broken one |
| FramingProofs.FrameLostOrNot | desktop/scripts/dev-bridge.ts:55-130 | a frame and a broken header: in one chunk nothing is passed on, in two the frame is |
| FramingProofs.ChunkedRoundTrip | desktop/scripts/dev-bridge.ts:47-96 | a stream of frames cut anywhere gives exactly its payloads, leaves nothing and is not destroyed |
| Porcelain.SplitFieldsN | cli/internal/gitstatus/porcelain.go:209-223 | at most n fields, the last with its spaces |
| Porcelain.ParsePorcelainV2 | cli/internal/gitstatus/porcelain.go:49-102 | the scanner loop parses record by record as the specification does |
| PorcelainProofs.ParseOfPrint | cli/internal/gitstatus/porcelain.go:49-251 | whatever git prints for well-formed headers and files comes back: each file in the right buckets, in order, with its paths, and each header's value |
| PorcelainProofs.PanicsIff | cli/internal/gitstatus/porcelain.go:59-95 | the parser panics if and only if it gets to a record of one byte whose kind calls for fields: 1, u, or 2 with a record behind it |
| PorcelainProofs.FailsIff | cli/internal/gitstatus/porcelain.go:62-100 | the parser gives an error exactly on a reached record with too few blanks for its kind, or a reached rename that is the last record |
| PorcelainProofs.PassedOver | cli/internal/gitstatus/porcelain.go:62-96 | empty records, untracked files without a path and records of other kinds change nothing |
| PorcelainProofs.OneByteRecordPanics | cli/internal/gitstatus/porcelain.go:59-95 | the output that is the one byte `1` makes the parser panic |
| PorcelainProofs.JoinSplits | cli/internal/gitstatus/porcelain.go:209-223 | splitting undoes joining by spaces, whatever spaces the path has |
| PorcelainProofs.HeaderTexts | cli/internal/gitstatus/porcelain.go:34-38 | the headers as git prints them |
| PorcelainProofs.Tagged | cli/internal/gitstatus/porcelain.go:39-46 | the tag with which git prints each kind of entry |
| GitPages.PaginateFiles | cli/internal/gitstatus/cursor.go:58-89 | a page is the first files behind the cursor, with the cursor of its last file exactly if more follow |
| GitPages.PagesAreTheFiles | cli/internal/gitstatus/cursor.go:58-89 | followed from the empty cursor the pages hold every file once, in bucket and path order, all but the last full |
| GitPages.FollowingEnds | cli/internal/gitstatus/cursor.go:78-88 | from any file on following the cursor ends |
| GitPages.SortedBucketOk | cli/internal/gitstatus/gitstatus.go:199-203 | a bucket of different paths is in strict order once sorted |
| HistoryMerge.MergeEventRecords | cli/internal/taskhistory/history.go:355-402 | the loops give the merge of the specification, sorted |
| HistoryMerge.MergeKeepsAll | cli/internal/taskhistory/history.go:355-402 | every local record stays, exactly the unmatched recovered ones are added, their non-empty keys are new and distinct, and the result is sorted |
| HistoryMerge.MatchesShareAKey | cli/internal/taskhistory/history.go:369-379 | a record is merged only into one with which it shares a non-empty key |
| HistoryMerge.MatchBelongs | cli/internal/taskhistory/history.go:367-379 | a recovered record goes to the last one of its provider key, where there is none to the last of its merge key, and is new otherwise |
| HistoryMerge.ProviderKeyIff | cli/internal/taskhistory/history.go:494-499 | provider keys agree exactly when the provider's record and part do |
| HistoryMerge.CallsMergeIff | cli/internal/taskhistory/history.go:479-492 | two records of tool calls share a key exactly if they are of one call and both before or both behind its end |
| HistoryMerge.MessagesMergeIff | cli/internal/taskexecutor/stream.go:133-167 | messages share a key exactly by role and ids, or by role, type and words |
| HistoryMerge.NamelessCallsMergeIff | cli/internal/taskexecutor/stream.go:133-167 | tool calls without an id share a key exactly by kind, name and words of the input |
| HistoryMerge.OtherKindsMergeIff | cli/internal/taskexecutor/stream.go:133-167 | plans, usage records and raw records share a key by id, always, and by text |
| HistoryMerge.KeylessIff | cli/internal/taskexecutor/stream.go:133-167 | a record has no key exactly if it lacks the part that its kind calls for |
| HistoryMerge.KindsKeptApart | cli/internal/taskhistory/history.go:475-492 | records of different kinds never share a key |
| HistoryMerge.RecordLeIff | cli/internal/taskhistory/history.go:387-400 | the order of the result, field by field |
| HistoryMerge.EqualRecordsKeepOrder | cli/internal/taskhistory/history.go:387-400 | records that the order does not tell apart keep their order |
| Ordering.SortedIsUnique | cli/internal/taskengine/engine.go:322-327 | only one sorted sequence has given contents, if the order tells its items apart |
| Ordering.StrLeIff | cli/internal/taskengine/engine.go:322-327 | strings are ordered by their first difference, a prefix first |

## Left out

- Sequence numbers, epochs and sizes are unbounded; wrap-around of 64-bit counters is not modelled.
- `EventBuffer.Reset` during a live subscription, and the random choice of an epoch: the theorems about broker and proxy fix one epoch.
- Events that are pushed and never published because delivery fails; a stream item of unknown kind, which the proxy skips.
- A broker or buffer that is nil, and the goroutine that removes a subscriber when its context ends: removal is a step that may happen at any time.
- Partial writes on a failing connection, pings, timeouts and back-off; a write is one step that succeeds or fails.
- `activateSession`, `clearSession` and `writeProtocolForEpoch` of the relay client, which no other code there needs.
- Encryption, tokens and signatures: an encrypted message is a message tagged with its session.
- JSON, YAML and base64 as texts: configuration values, results and cursors are datatypes; a result's JSON text stands for its value.
- ConfigValues.ValuesEqualIsKeyEquality: converting a float beyond 64 bits to an integer is modelled as on amd64, where it gives the smallest integer.
- TaskConfig.Validate: the names of runtimes are not checked, and the texts of errors are not modelled; a nil map of properties is an empty one. The code finds duplicate edges by one text of all parts (config.go:724-734), in which names containing `|` can run into each other; the model keeps the compared value's key apart, so it accepts every configuration that the code accepts, and those the code refuses for such a collision.
- Reasons of transitions are a datatype instead of texts; the sorting of transitions by reason in the runtime is any order.
- One engine serves one task: the outer maps by task id are dropped.
- Schedules take resolving a completion with saving its new runs as one step, and a retry with its check as one step; a restart of the process is not modelled, nor is a file that cannot be written.
- ScheduleProofs.IterationsStayWithinLimit: the plain retry may pick any open failed agent run, where the code allows only the latest, so the theorem covers more schedules than the code has.
- Fresh ids of runs are not demanded to be unique by the schedule model.
- `LatestOpenFailedRun`, `RecoveryTargetForTask` and `CurrentIssueForTask`, which choose what the user sees; the guard of the plain retry is modelled.
- BlockedStepProofs.ListedOnceInOrder: run ids are assumed distinct and free of the character `>`, as UUIDs are; without that two pairs can share a key.
- ReplayUnique.StepsAreUnique: a condition that is enough and easy to see; the exact one is that of `ReplayOutcomes.DeterminedIff`.
- ListedSteps.ListedIff: run ids and the ids that triggers name are assumed free of the character `>`; a trigger that names something else could share a key with another step.
- ConfigMeaning.EdgesOkIff: names and fields are assumed free of `|`, which the code's text key does not keep apart.
- HistoryMerge.MessagesMergeIff: roles, types and ids are assumed free of `:`; with it the texts of two keys can agree by chance.
- ReplayOutcomes.DeterminedIff: run ids are assumed distinct and free of the character `>`, as UUIDs are.
- The derivation treats a run as finished where it starts, so nothing is said about its agreement with the live engine when branches run in parallel.
- Framing: white space is ASCII white space; `Number.parseInt` is exact, without the rounding of doubles; a payload is bytes, so decoding it as UTF-8 is not modelled. A slice of up to 2^48 bytes is taken to be available, and a longer one panics. A chunk that arrives while a session is being destroyed is not modelled; the broken header is still in the buffer, so it would be refused again.
- Porcelain.ParsePorcelainV2: records are values. The code keeps a rename record's bytes across the scanner's next step, which may overwrite them when the output is longer than the scanner's buffer of 64 KiB. Its caller asks git for `--no-renames` (gitstatus.go:244), so such records do not reach the parser in the program; records over the scanner's limit of 4 MiB are not modelled either.
- PorcelainProofs.ParseOfPrint: for rename records it holds of the parser on record values, with the same reservation.
- GitPages.PaginateFiles: limits below one, which the caller raises to the default; a bucket name that is none of the four is the rank 4.
- HistoryMerge.MergeEventRecords: how two matching records are merged field by field is a parameter; the theorems hold for every such rule.
- The RPC dispatch, the read models, prompts, worktrees, transcripts, downloads, the desktop and the relay server: only easy members or no visible code.
