# Workflow orchestration: models and proofs

The repository orchestrates agents working through pipelines of stages. This project models its
algorithms and small protocols in Dafny and proves what they keep, compute and sometimes lose:

- **Pipeline stages** (`StageGraph`, `CircularCheck`, `PipelineValidator`): the validator's recursive search
  for circular transitions, with the interpreter's recursion limit as a parameter.
- **Configuration** (`ConfigTree`, `ConfigHeap`, `ConfigUpdate`, `ConfigProtocol`, `ConfigRuns`,
  `ConfigIsolation`, `ConfigRaces`): the deep merge as a tree function and in place on a heap of dictionaries, the change
  report over shallow copies, and the commands as tasks interleaved at their suspension points.
- **Cycles and the flow graph** (`CycleWindows`, `CycleDetection`, `CycleNames`, `CycleRefinement`, `CycleContents`, `FlowData`,
  `BoxLayout`, `BoxGeometry`, `FlowLayout`, `FlowConservation`, `FlowPlacement`): from workflow events to cycles, nodes, edges and
  positions; the single-pass detector against the two-pass form it replaced.
- **The older user interface** (`LegacyNesting`, `EdgeQuotient`, `EventMerging`): nested repair cycles, edges
  of collapsed cycles, merging polled and live events.
- **Runtime services** (`ContainerRecovery`, `Backoff`, `SocketStore`, `TaskQueue`, `Scheduler`,
  `SchedulerRuns`): bounded parallel recovery, the reconnecting socket store, the priority queue and its consumer.
- **Shared** (`Wrappers`, `OrderedMap`, `StableSorting`, `Decimal`, `Text`,
  `Distinctness`).

Conventions. Timestamps are integers and the clock is a parameter; date parsing is assumed to succeed.
JavaScript and Python maps keep insertion order and are sequences of entries. Code that mutates is a class,
or a method proved against a function; the laws are lemmas about that function. Reconnect delays are
integers, coordinates reals. Task priorities are integers: the enumeration's values are taken to be distinct.

Results that contradict the documentation or a natural expectation of the code:

- The circular-dependency search promises to detect circular dependencies. It detects ways back to its own
  start stage; a cycle that avoids the start makes it recurse until the interpreter's limit if it is entered
  before a way back is found, which depends on the order of the transitions (`CircularCheck.CheckerVerdict`,
  `CircularCheck.OrderDecides`). Over all stages of a pipeline with unique names, some answer other than False
  is still given exactly when there is a cycle.
- The change report of a configuration update misses changes inside nested dictionaries, which the shallow
  copies share (`ConfigUpdate.ReportedIffTopLevel` gives the exact condition).
- It names the pipelines after every update, changed or not, because it compares a list with a tuple
  (`ConfigUpdate.ReportedSections`, `ConfigUpdate.NoUpdateIsReported`).
- The handler commented as a rollback re-reads the configuration and restores nothing: a save whose
  publication fails stays saved (`ConfigRaces.FailedSaveStays`).
- `add_environment_variable` loads before it locks and can lose any other command on its project
  (`ConfigRaces.NothingLostIffNoRace`, `ConfigRaces.AddVariableCanLoseAnyUpdate`).
- The header of the cycle detector speaks of Tarjan's algorithm; the code pairs start and end events.
- A second `connect` while the first is under way leaves the socket store marked as connecting with nothing
  left that could end it, until `disconnect` or an unauthenticated `connect`; nothing else does
  (`SocketStore.Store.Run`).
- The store can show a connection it does not have (`SocketStore.Store.Perform` says from when until when).
- A second `stop` that returns after the next `start` makes the scheduler forget the new consumer, so that
  another one can be started beside it (`SchedulerRuns.TwoConsumersCanBeAlive`).
- An agent whose name contains a line break is not recognised when a cycle's nodes are ordered by time
  (`FlowPlacement.AgentNodeTime`).
- Edges are compared by a text that joins the ids with an arrow, so ids containing the arrow can make two
  different edges look alike (`EdgeQuotient.ArrowsHideAnEdge`).
- A live event that arrives after a later one has been merged is not shown until it is polled
  (`EventMerging.BatchesAgreeIff`, `EventMerging.LateEventIsDropped`).

Stores. What the configuration modules say of versions is proved for both kinds the repository has: the in-memory store
writes the version it is given, the Elasticsearch store one more than the version it replaces. What they say of
contents speaks of stores that hand out copies, as the Elasticsearch store does. The in-memory store hands out
the stored object, so a configuration loaded before an update shows what the update changed inside nested
dictionaries (`ConfigUpdate.NestedPartSurvivesIff`), and saving it keeps just that (`ConfigUpdate.LateSaveKeeps`).

`dafny verify dfyconfig.toml` checks the whole project.

## Model

| member | source | states |
|---|---|---|
| `CircularCheck.CheckerVerdict` | src/codetoreum/application/configuration_service.py:1059-1093 | With a recursion limit above the number of stages, all three answers exactly: False when no walk of transitions returns to the start or repeats a stage; the limit when a walk repeats a stage after every list of transitions is cut behind its first one that leads back to the start; True when some walk returns and no such walk repeats |
| `CircularCheck.LimitIffSinking` | src/codetoreum/application/configuration_service.py:1083-1091 | At any limit: it is reached exactly along a walk as long as the limit, of known stages other than the start, on which no transition listed before the one taken is the start or leads back to it |
| `CircularCheck.AnswersAtAnyLimit` | src/codetoreum/application/configuration_service.py:1059-1093 | At any limit all three answers exactly: the limit along such a walk; otherwise True when some walk returns to the start and False when none does |
| `CircularCheck.CutMeansListedFirst` | src/codetoreum/application/configuration_service.py:1083-1091 | What cutting a list of transitions keeps: the known stages other than the start before which no transition leads back |
| `CircularCheck.OrderDecides` | src/codetoreum/application/configuration_service.py:1083-1091 | On one graph with a way back and another cycle, the order of two transitions decides between True and running into the limit |
| `CircularCheck.FoundMeansReturn` | src/codetoreum/application/configuration_service.py:1083-1091 | At any limit, True is answered only if a walk of transitions leads from the start stage back to itself |
| `CircularCheck.LimitMeansLongWalk` | src/codetoreum/application/configuration_service.py:1088-1091 | At any limit, running into it exhibits a walk of known stages, as long as the limit, that never meets the start |
| `CircularCheck.ClearMeansNoReturn` | src/codetoreum/application/configuration_service.py:1083-1093 | At any limit, False rules out every way back to the start and every walk longer than the limit |
| `CircularCheck.ForeignCycleIsNeverAnswered` | src/codetoreum/application/configuration_service.py:1089-1091 | A start that leads to a cycle and from which nothing returns is never answered: every recursion limit is exceeded, because the same start stage is handed down |
| `CircularCheck.ClearIffNoReachableCycle` | src/codetoreum/application/configuration_service.py:1059-1093 | For a start stage of the map, False means exactly that no walk from it repeats a stage |
| `PipelineValidator.AllClearIffAcyclic` | src/codetoreum/application/configuration_service.py:1036-1050 | With unique names, the stage-by-stage search comes out False for every entry exactly when the graph of all submitted transitions has no cycle, although the stage map may shadow an unnamed entry by an empty-named one |
| `PipelineValidator.ShadowedCycleIsMissed` | src/codetoreum/application/configuration_service.py:1037-1048 | Without unique names the search alone is not enough: two shadowed entries form a cycle that every entry's search misses |
| `PipelineValidator.CleanIffAcyclic` | src/codetoreum/application/configuration_service.py:1036-1050 | With unique names, no circularity error and no recursion error together are equivalent to acyclicity |
| `PipelineValidator.CircularErrorsName` | src/codetoreum/application/configuration_service.py:1043-1050 | The circularity errors name exactly the entries from which a walk leads back before the search can run into another cycle |
| `PipelineValidator.CheckAllStages` | src/codetoreum/application/configuration_service.py:1043-1050 | The loop ends with the exception exactly when some entry's search hits the limit before an answer, and otherwise collects the errors in list order |
| `PipelineValidator.ValidatePipelineUpdates` | src/codetoreum/application/configuration_service.py:1021-1057 | The validator accepts exactly when the stages are a list with unique names and acyclic transitions and the triggers, if given, are a list; it raises exactly when some entry's search runs into a cycle before it finds a way back; which error is reported in which other case |
| `PipelineValidator.AcceptedPipelinesTerminate` | src/codetoreum/application/configuration_service.py:1021-1057 | An accepted pipeline has a rank that drops along every transition between known stages; a walk of known stages visits none twice and has no more stages than the pipeline |
| `PipelineValidator.LastEntryWins` | src/codetoreum/application/configuration_service.py:1036-1042 | Of several entries with a name, a missing one counting as empty, the stage map has the transitions of the last |
| `PipelineValidator.WholeGraphHasSubmitted` | src/codetoreum/application/configuration_service.py:1036-1050 | The graph of all submitted transitions has exactly those some entry of the name lists |
| `StageGraph.AcyclicIffRanked` | src/codetoreum/application/configuration_service.py:1042-1050 | A transition graph is acyclic exactly when its known stages can be ranked so that the rank drops along every transition |
| `ConfigTree.MergeAtPath` | src/codetoreum/application/configuration_service.py:904-931 | Path by path: the update wins wherever it sets something, a kind conflict included; paths it does not reach keep the target's value; where it only descends there is still a dictionary |
| `ConfigTree.MergeIdempotent` | src/codetoreum/application/configuration_service.py:904-931 | Merging the same update a second time changes nothing, proxies and kind conflicts included |
| `ConfigTree.MergeChangesNothingIff` | src/codetoreum/application/configuration_service.py:904-931 | An update changes nothing exactly when the target already holds, at its path, everything the update sets |
| `ConfigTree.PlainEquality` | src/codetoreum/application/configuration_service.py:944-951 | How values compare: a proxy as the dictionary it shows, dictionaries key by key, sequences item by item, a list never equal to a tuple |
| `ConfigTree.ReportRebuildsNewConfig` | src/codetoreum/application/configuration_service.py:933-951 | Replaying the reported new values on the old configuration gives the new one exactly when no old key was dropped, and then the report is empty exactly when nothing changed |
| `ConfigTree.ComputeChanges` | src/codetoreum/application/configuration_service.py:944-951 | The loop reports exactly the new or differing keys, each with its old value, or None if it had none, and its new one |
| `ConfigHeap.PyDict.DeepMerge` | src/codetoreum/application/configuration_service.py:904-931 | In place on a heap of dictionaries: the tree becomes the merged tree, keys in any order, dictionaries the update leaves alone or merges into stay the same objects, and under those it leaves alone no object changes |
| `ConfigHeap.PyDict.MergeKey` | src/codetoreum/application/configuration_service.py:920-930 | One key: an existing dictionary is merged into where it stands and stays the same object, anything else is replaced; siblings are untouched |
| `ConfigUpdate.MergeIntoCopy` | src/codetoreum/application/configuration_service.py:125-142 | Merging into a shallow copy yields the merged section but also changes what the original, and every other shallow copy, shows wherever the merge descended |
| `ConfigUpdate.ReportedIffTopLevel` | src/codetoreum/application/configuration_service.py:125-131 | A section is reported as changed exactly when the update adds a top-level key or replaces a different top-level value outright; reported sections really differ |
| `ConfigUpdate.NestedChangeIsMissed` | src/codetoreum/application/configuration_service.py:125-142 | A change inside a nested dictionary of a section is stored and not reported |
| `ConfigUpdate.ReportedSections` | src/codetoreum/application/configuration_service.py:168-175 | Which sections the change report of an update names: the pipelines always, as a list of copies is compared with the tuple a configuration holds; the other two exactly on a top-level change; nothing else |
| `ConfigUpdate.UnchangedReportedIff` | src/codetoreum/ports/output/config_store.py:51-57 | The report names a section that did not change exactly when the pipelines did not |
| `ConfigUpdate.NoUpdateIsReported` | src/codetoreum/application/configuration_service.py:125-131 | An update that asks for nothing changes nothing and is reported as a change of the pipelines |
| `ConfigUpdate.NestedPartSurvivesIff` | src/codetoreum/adapters/testing/in_memory_config_store.py:45-51 | Where the store hands out the stored object, a configuration loaded before an update shows its old values after it exactly when everything the update sets inside a dictionary it merges into is there already |
| `ConfigUpdate.LateSaveKeeps` | src/codetoreum/adapters/testing/in_memory_config_store.py:45-78 | Saving that configuration late keeps, path by path, what the update did inside the dictionaries it merged into and the old values elsewhere; it keeps the whole update exactly when there is no change at the top level |
| `ConfigUpdate.ApplyUpdates` | src/codetoreum/application/configuration_service.py:119-175 | Validation, merging and reporting of one update, on the heap, agree with the tree-level description; the pipelines afterwards are those submitted, item by item as a proxy of the submitted dictionary, or else those loaded; each other section is the loaded one merged with its own update; the report has the old pipelines before and the new ones after |
| `ConfigUpdate.SectionsOfOutcome` | src/codetoreum/application/configuration_service.py:119-142 | An update is carried out exactly when tech stacks and testing, if given, are dictionaries and the pipelines, if given, a list of dictionaries with names; and each section is then merged with its own update only |
| `ConfigUpdate.PipelinesOfOutcome` | src/codetoreum/application/configuration_service.py:144-161 | The pipelines are the submitted dictionaries, one proxy each in order, or those loaded if none are submitted |
| `ConfigUpdate.ReportOfOutcome` | src/codetoreum/application/configuration_service.py:125-175 | The report's pipelines entry has the old ones, as a list, before and the new ones, as a tuple, after; a dictionary's entry has what its shallow copy shows after the merge before, and the merged dictionary after |
| `ConfigProtocol.StepKeepsInvariant` | src/codetoreum/application/configuration_service.py:90-199 | For stores that write the version they are given and for stores that assign one, every step of every task, successful or failing, keeps: locks held by exactly their holders, a basis loaded under the lock equal to the stored configuration, and the version and contents of the store determined by the log of saves |
| `ConfigProtocol.SaveStores` | src/codetoreum/application/configuration_service.py:163-165 | A save replaces the configuration of its own project only, under one more than the version it was computed from or, where the store assigns versions, than the version it replaces |
| `ConfigProtocol.UpdateStores` | src/codetoreum/application/configuration_service.py:111-165 | On the stored configuration: a saved update was well typed; it has merged tech stacks and testing each with its own update, put the submitted pipelines in place of the old ones, item by item, and kept the variables and every section it does not name |
| `ConfigProtocol.VariableStores` | src/codetoreum/application/configuration_service.py:453-510 | On the stored configuration: a saved variable was valid and has its value; the other variables and all sections are those of the configuration it was computed from |
| `ConfigProtocol.OtherStepsStoreNothing` | src/codetoreum/application/configuration_service.py:90-199 | No other step, and no failing save, changes the store |
| `ConfigProtocol.RefusedCommandsEnd` | src/codetoreum/application/configuration_service.py:111-123 | A command that cannot load its project's configuration, or asks for something invalid, ends at once with nothing saved and no lock held |
| `ConfigProtocol.FailuresAreHandledUnderTheLock` | src/codetoreum/application/configuration_service.py:163-199 | The handler of a failed save or publication runs under the lock, and the command then ends as failed |
| `ConfigRuns.RunInvariant` | src/codetoreum/application/configuration_service.py:90-199 | The invariant holds at the end of every interleaving of any commands on any store |
| `ConfigRuns.VersionCountsSavesIffNothingLost` | src/codetoreum/application/configuration_service.py:111-199 | In every mixed run a store that writes the version it is given counts the saves to a project exactly when none of them overwrote a configuration it had not been computed from, a store that assigns versions counts them all; and if none did, the store is the saves applied in order |
| `ConfigRuns.UpdatesAreSerialisable` | src/codetoreum/application/configuration_service.py:111-199 | If a project sees update_project_config only, its stored configuration is the saved updates applied in lock order and its version the start version plus the number of saves, those whose publication failed included |
| `ConfigIsolation.ProjectsDoNotInterfere` | src/codetoreum/application/configuration_service.py:90-94 | For every run, lost saves and failures included, there is a run in which only one project's tasks move and which leaves that project the same configuration, lock, task phases and saves |
| `ConfigIsolation.StepElsewhere` | src/codetoreum/application/configuration_service.py:90-94 | A step of another project's task leaves a project's configuration, lock, task phases and saves alone |
| `ConfigIsolation.StoredIsOwnReplay` | src/codetoreum/application/configuration_service.py:90-199 | In every run that loses none of a project's saves, what is stored for it is its own saves applied in order, whatever happens to other projects |
| `ConfigRuns.OneHolderPerProject` | src/codetoreum/application/configuration_service.py:90-111 | At most one task per project is between acquiring and releasing its lock, in every reachable state: the lock is held from before loading, or before saving, until the save, its publication and the handler of their failure are over |
| `ConfigRuns.NoDeadlock` | src/codetoreum/application/configuration_service.py:90-111 | In every reachable state some task can go on unless all have ended |
| `ConfigRuns.RunsEnd` | src/codetoreum/application/configuration_service.py:111-199 | All commands end: a run has at most five steps a command, and one that cannot go on has every command done or failed and no lock held |
| `ConfigRaces.AddVariableCanLoseAnyUpdate` | src/codetoreum/application/configuration_service.py:439-520 | Because add_environment_variable loads before it locks: in every list of commands, with every stored configuration, an accepted one can overtake any other accepted command on its project, both ending well, so that but for the version nothing of the other is left; under both version policies |
| `ConfigRaces.NothingLostIffNoRace` | src/codetoreum/application/configuration_service.py:453-466 | Every run keeps every save to a project exactly when no accepted add_environment_variable on it goes together with another accepted command on it |
| `ConfigRaces.FailedSaveStays` | src/codetoreum/application/configuration_service.py:189-199 | The handler of a failed publication restores nothing: any accepted command can end as failed with its new configuration stored |
| `ConfigRaces.FailedAndSaved` | src/codetoreum/application/configuration_service.py:163-199 | In every run a failed command is among the saves exactly when it failed after its save |
| `CycleWindows.ClosedIffMatched` | frontend/src/utils/cycleDetection.ts:243-407 | A window is reported exactly when a start is followed by an end of its kind with no start or end of that kind between them |
| `CycleWindows.ClosedIdsDiffer` | frontend/src/utils/cycleDetection.ts:245-245 | No two closed cycles get the same generated identifier |
| `CycleWindows.OpenIdDiffers` | frontend/src/utils/cycleDetection.ts:411-441 | A cycle still open never gets the identifier of a closed one |
| `CycleWindows.SameSlotWindowsFollow` | frontend/src/utils/cycleDetection.ts:243-407 | Windows of one kind follow one another in the event order |
| `CycleDetection.DetectCycles` | frontend/src/utils/cycleDetection.ts:8-120 | The two-pass form's first pass returns the cycles read off the matched windows, then those left open ending with the last event (by names: CycleContents.DetectsSpan, CycleContents.DetectsUnfinished, CycleContents.DetectsOnly) |
| `CycleDetection.GroupExecutionsIntoCycles` | frontend/src/utils/cycleDetection.ts:125-173 | The second pass keeps exactly the cycles with an execution starting in their window, numbering executions through all agents |
| `CycleDetection.IdentifyCyclesSimple` | frontend/src/utils/cycleDetection.ts:179-208 | The fallback lists every agent that ran more than once, with all its executions |
| `CycleDetection.IdentifyCycles` | frontend/src/utils/cycleDetection.ts:214-451 | The single pass returns every matched window with the executions starting in it, open ones up to the clock, and the fallback only if there is no window (by names: CycleContents.IdentifiesSpan, CycleContents.IdentifiesUnfinished, CycleContents.IdentifiesOnly, CycleContents.OtherwiseSimple) |
| `CycleNames.AnyMarksAreNames` | frontend/src/utils/cycleDetection.ts:238-408 | The single pass begins and finishes a cycle of a kind on exactly the decision events with that kind's names, snake_case or PascalCase |
| `CycleNames.SnakeMarksAreNames` | frontend/src/utils/cycleDetection.ts:24-105 | The two-pass form does so on exactly the snake_case names |
| `CycleNames.KnownNamesAgree` | frontend/src/utils/cycleDetection.ts:238-408 | Every event whose name the two-pass form knows is understood by the single pass in the same way; where they differ the name is a PascalCase one |
| `CycleContents.TimeLine` | frontend/src/utils/cycleDetection.ts:221-223 | Events are read in the order of their timestamps, those of one moment in the order given, none lost |
| `CycleContents.DetectsSpan` | frontend/src/utils/cycleDetection.ts:24-105 | A decision event with a snake_case start name of a kind, followed by an end name of that kind with neither in between, is a cycle of the first pass with that kind's type, both events' ids as entry and exit points, their times, and the number of the cycles finished before it, plus one, in its id |
| `CycleContents.DetectsUnfinished` | frontend/src/utils/cycleDetection.ts:107-117 | A start with neither name of its kind after it is a cycle without exit point that ends with the last event |
| `CycleContents.DetectsOnly` | frontend/src/utils/cycleDetection.ts:8-120 | The first pass finds nothing else |
| `CycleContents.IdentifiesSpan` | frontend/src/utils/cycleDetection.ts:243-407 | On the returned map: a decision event with a start name of a kind, in either spelling, followed by an end name of that kind with neither in between, has an entry with that kind's type, both events' ids as entry and exit points, their times, and the executions starting within it |
| `CycleContents.IdentifiesUnfinished` | frontend/src/utils/cycleDetection.ts:410-443 | A start with neither name of its kind after it has an entry without exit point, ending with the last event, with the executions starting until the clock |
| `CycleContents.IdentifiesOnly` | frontend/src/utils/cycleDetection.ts:243-443 | If any event bears a start name, every entry of the map is one of those |
| `CycleContents.OtherwiseSimple` | frontend/src/utils/cycleDetection.ts:445-448 | If none does, the map is that of the fallback |
| `CycleContents.FinishedInOrder` | frontend/src/utils/cycleDetection.ts:243-407 | Finished cycles are listed in the order in which they finish |
| `CycleContents.UnfinishedInOrder` | frontend/src/utils/cycleDetection.ts:410-443 | Those left open come behind them, a review before a repair before a conversation |
| `CycleContents.RunsAreTheExecutions` | frontend/src/utils/cycleDetection.ts:275-287 | The executions listed are exactly those starting within the bounds, agent by agent in order, each once with its agent, task, index and start time |
| `CycleContents.WhatIsGrouped` | frontend/src/utils/cycleDetection.ts:125-173 | The grouped map holds each cycle that has an execution in its window, numbered through, and nothing else |
| `CycleContents.WhatIsSimple` | frontend/src/utils/cycleDetection.ts:179-208 | The fallback's map holds the agents that ran more than once, in order, each as a cycle of type unknown from its first start to its last end with all its executions |
| `CycleDetection.DetectedIdsDistinct` | frontend/src/utils/cycleDetection.ts:235-443 | Closed or open, every detected cycle has an identifier of its own |
| `CycleDetection.NothingOverwritten` | frontend/src/utils/cycleDetection.ts:129-170 | With distinct identifiers, filling the map loses no cycle |
| `CycleRefinement.RefinesIffClockIrrelevant` | frontend/src/utils/cycleDetection.ts:8-173 | Dropping cycles without executions and numbering executions by place, the single pass equals grouping after detecting exactly when no execution falls between the last event and the clock inside an open cycle |
| `CycleRefinement.NoLateExecutions` | frontend/src/utils/cycleDetection.ts:411-443 | Executions starting no later than the last event, itself not after the clock, are enough for the two forms to agree |
| `CycleRefinement.TwoPassOnSnakeNames` | frontend/src/utils/cycleDetection.ts:32-110 | On PascalCase events, which the two-pass form ignores, the single pass finds what the two-pass form finds on the same events under their snake_case names |
| `CycleRefinement.CompareForms` | frontend/src/utils/cycleDetection.ts:214-451 | The refinement on the methods themselves: the single pass on any events and the two passes on the same events under their snake_case names return matching maps exactly under the clock condition |
| `CycleRefinement.CompareFormsDirectly` | frontend/src/utils/cycleDetection.ts:214-451 | The same on the very same events, where no event bears a PascalCase name |
| `CycleRefinement.SameKindWindowsInOrder` | frontend/src/utils/cycleDetection.ts:221-223 | Over time-sorted events, windows of one kind are in order and meet at most at their end points |
| `CycleRefinement.OpenCycleComesLast` | frontend/src/utils/cycleDetection.ts:411-443 | A cycle still open begins no earlier than every closed one of its kind ends |
| `StableSorting.SortIsSortedPermutation` | frontend/src/utils/cycleDetection.ts:221-223 | The sort used throughout is a sorted permutation for any strict weak order |
| `StableSorting.SortIsStable` | frontend/src/utils/cycleDetection.ts:221-223 | Elements the order does not tell apart keep their input order |
| `Decimal.AgentIdRoundTrip` | frontend/src/utils/flowLayout.ts:151-156 | agent-<name>-<i> reads back as (name, i) exactly when the name is not empty and has none of the four line terminators, dashes and digits in it included; any other is not read at all |
| `Decimal.AgentIdInjective` | frontend/src/hooks/useFlowData.ts:146-146 | Two executions share a node identifier exactly when agent and index agree, the empty agent name included |
| `Decimal.DigitsAreDecimal` | frontend/src/hooks/useFlowData.ts:116-116 | The numbers in generated identifiers are decimal, without leading zeros, the most significant digit first |
| `FlowData.TrackExecutions` | frontend/src/hooks/useFlowData.ts:16-70 | Per agent, executions are listed in start order; the first with a task is ended by the last matching end event after it, repeated ones never |
| `FlowData.ActiveIffNeverEnded` | frontend/src/hooks/useFlowData.ts:36-64 | An execution is shown as active exactly when no end event, of whatever category or agent, carries its task; it has an end time exactly when its status is not running |
| `FlowData.WhatIsTracked` | frontend/src/hooks/useFlowData.ts:16-70 | By names: an agent's executions are its initialisations in order; one is over exactly if it is the agent's first of its task and a lifecycle event of that agent and task finishes it, the last such event giving the end time and, by its name, completed or failed |
| `FlowData.ActiveByNames` | frontend/src/hooks/useFlowData.ts:36-64 | By names: an execution is shown as active exactly when no event of whatever agent and category carries its task and a name of completion or failure |
| `FlowData.BuildGraph` | frontend/src/hooks/useFlowData.ts:83-221 | Nodes are drawn in event order between the created node and, exactly if an event says the workflow completed, the completed one; the edges link each to the next, except that a graph of just those two gets none |
| `FlowData.WhatIsDrawn` | frontend/src/hooks/useFlowData.ts:116-168 | A decision event draws a node named by its position, with its time; an event that is neither a decision nor an agent's initialisation draws nothing |
| `FlowData.NodesFollowEvents` | frontend/src/hooks/useFlowData.ts:83-221 | The nodes are those the events draw, in the order of the events, behind the created node |
| `FlowData.ChainLinks` | frontend/src/hooks/useFlowData.ts:195-221 | The edges link each node to the next, and are one fewer |
| `FlowData.NodeOfStart` | frontend/src/hooks/useFlowData.ts:139-146 | A start event draws the node of the first execution with its agent and task |
| `FlowPlacement.FlowGraph` | frontend/src/hooks/useFlowData.ts:11-252 | Tracking, detection, graph building and layout put together return the layout of the built nodes, or nothing without events or run |
| `FlowPlacement.AgentNodePlacement` | frontend/src/hooks/useFlowData.ts:138-168 | End to end: an agent node goes to the first listed cycle in whose window its execution started, open windows reaching to the clock, and to none if there is no such cycle |
| `FlowPlacement.AgentNodeParent` | frontend/src/hooks/useFlowData.ts:138-238 | On the drawing itself: wherever a start event's node is drawn, its parent is the first listed cycle in whose window its execution started, and it has none if there is no such cycle |
| `FlowPlacement.AgentNodeIsDrawn` | frontend/src/hooks/useFlowData.ts:138-238 | Every start event's node is drawn |
| `FlowPlacement.AgentNodeInItsWindow` | frontend/src/utils/cycleDetection.ts:275-287 | With no (agent, task) started twice, that is the start event's own time, and the window is the one shown, if the clock had reached the event |
| `FlowPlacement.FallbackPlacement` | frontend/src/utils/cycleDetection.ts:445-448 | Without any boundary event an agent node is placed in its agent's own cycle, which lasts from its first start to its last end, exactly when the agent started more than once |
| `FlowPlacement.AgentNodeTime` | frontend/src/utils/flowLayout.ts:145-163 | Inside a cycle an agent node is ordered by the start of the execution it shows if its agent's name is not empty and has none of the four line terminators; otherwise it counts as time 0 |
| `FlowPlacement.NodeIdsDistinctIff` | frontend/src/hooks/useFlowData.ts:116-168 | Node identifiers are pairwise distinct exactly when no agent starts the same task twice |
| `FlowPlacement.DrawingIsComplete` | frontend/src/hooks/useFlowData.ts:223-238 | For every run of events the drawing contains each built node as often as it was built, and no two root boxes overlap, with the sizes the hook passes |
| `FlowPlacement.DrawnDistances` | frontend/src/hooks/useFlowData.ts:223-236 | With the sizes the hook passes: neighbours in a box stand 400 apart, the next root 120 below a node and 380 below a box, all centred at 600 |
| `FlowLayout.GroupNodes` | frontend/src/utils/flowLayout.ts:29-80 | Every node goes to the first cycle in map order it belongs to, or stands alone |
| `FlowLayout.ApplyCycleLayout` | frontend/src/utils/flowLayout.ts:82-298 | The result is the layout of the column, the rows of the cycles in map order and the completed node |
| `BoxLayout.LayOut` | frontend/src/utils/flowLayout.ts:101-298 | The loop with one running position places column, boxes of non-empty rows, completed node and rows at the closed-form coordinates, boxes first and children last |
| `BoxLayout.LeavesOfLayout` | frontend/src/utils/flowLayout.ts:257-297 | A result shows the column, the completed node and every row: nothing else, nothing twice, nothing lost |
| `FlowLayout.ChronologicalOrder` | frontend/src/utils/flowLayout.ts:143-165 | A cycle's row holds the same nodes in order of time |
| `BoxGeometry.ParentsComeFirst` | frontend/src/utils/flowLayout.ts:167-189 | Every child stands after its parent box in the result and inside it, at least the padding away from each side and exactly the padding from top and bottom |
| `BoxGeometry.RowFillsBox` | frontend/src/utils/flowLayout.ts:167-189 | In a result every box has a child exactly the padding away from its left side and one exactly the padding away from its right side |
| `BoxGeometry.SiblingsStandInOrder` | frontend/src/utils/flowLayout.ts:167-189 | Children of one box are elements of one row, stand left to right in its order, at least the horizontal spacing apart and exactly so if they are neighbours |
| `FlowConservation.ChildrenInOrder` | frontend/src/utils/flowLayout.ts:143-189 | Children of one box stand in the order of their times, those with timestamps in the order of these |
| `FlowConservation.RowKeepsTies` | frontend/src/utils/flowLayout.ts:143-165 | Nodes of one cycle that share a time keep the order they were given in |
| `BoxGeometry.RootsDisjoint` | frontend/src/utils/flowLayout.ts:101-255 | If the vertical spacing holds a node, or no node stands above the boxes, and sizes and gaps are not negative, no two roots of the result overlap vertically |
| `BoxGeometry.RootsDisjointIff` | frontend/src/utils/flowLayout.ts:101-255 | The roots of the result are apart exactly when the vertical spacing holds a node, the column is empty, or there is at most one root |
| `BoxGeometry.BoxesInOrder` | frontend/src/utils/flowLayout.ts:138-141 | Boxes stand in the order of their cycles, each for a row that is not empty and as wide as its row |
| `FlowConservation.ConservedIff` | frontend/src/utils/flowLayout.ts:29-80 | The result shows every input node exactly as often as it was given if and only if at most one node is called created and at most one completed |
| `FlowConservation.NodesKept` | frontend/src/utils/flowLayout.ts:112-143 | How often each node is shown: ordinary nodes as given, of the special ones the first |
| `FlowConservation.ParentIsHome` | frontend/src/utils/flowLayout.ts:270-286 | A placed node names as its parent the first cycle it belongs to, and nothing else |
| `FlowConservation.ParentIsFirst` | frontend/src/utils/flowLayout.ts:40-80 | On the drawing, in terms of ids and times only: a node's parent is the first listed cycle that lists its agent and index, or whose window holds its time, and it has none exactly when there is no such cycle |
| `FlowConservation.DecisionNodeParent` | frontend/src/utils/flowLayout.ts:58-75 | On the drawing: a decision node's parent is the first listed cycle that starts no later than its time and ends no earlier, the clock standing in for a missing end; it has none exactly when no cycle's window holds the time, or it has no time |
| `FlowConservation.BoxIffOccupied` | frontend/src/utils/flowLayout.ts:138-141 | A cycle has a box exactly when some node belongs to it first |
| `FlowConservation.BoxIffBelonging` | frontend/src/utils/flowLayout.ts:138-141 | That is, when some node belongs to it by id or time and to no cycle listed before it |
| `FlowConservation.StackInOrder` | frontend/src/utils/flowLayout.ts:101-255 | From top to bottom: the created node if given, the standalone nodes by the number ending their ids, the boxes in map order, the completed node if given |
| `FlowConservation.SequenceIsLastNumber` | frontend/src/utils/flowLayout.ts:103-110 | The number standalone nodes are ordered by is the run of digits after the last dash of the id, 0 if there is none |
| `FlowConservation.OnlyIsFirst` | frontend/src/utils/flowLayout.ts:112-121 | Of several nodes called created, or completed, the first given is shown |
| `BoxGeometry.StackSteps` | frontend/src/utils/flowLayout.ts:101-255 | The stack begins at 100 and is centred; after a node comes the vertical spacing, after a box its height, the cycle gap and the vertical spacing |
| `BoxGeometry.BoxOfItsRow` | frontend/src/utils/flowLayout.ts:167-230 | Every box is that of a cycle with nodes, counts them, and is as high as a node and the padding |
| `FlowConservation.NoBoxTwice` | frontend/src/utils/flowLayout.ts:212-241 | No cycle has two boxes |
| `LegacyNesting.LinkParents` | legacy_ux/src/utils/cycleLayout.js:229-255 | The nested loops give each fix cycle the last test cycle around it as parent, and no other cycle one |
| `LegacyNesting.LinksAreShallow` | legacy_ux/src/utils/cycleLayout.js:229-255 | Exactly the fix cycles whose window lies in that of a test cycle get a parent; it is such a test cycle and has none itself |
| `LegacyNesting.FoldCycles` | legacy_ux/src/utils/cycleLayout.js:846-862 | Rows of top-level cycles with the nodes of their nested cycles folded in, in order of time |
| `LegacyNesting.FoldingKeepsEveryNode` | legacy_ux/src/utils/cycleLayout.js:746-862 | However cycles nest, every node is standalone or in exactly one row, as often as given |
| `LegacyNesting.FoldingKeepsTies` | legacy_ux/src/utils/cycleLayout.js:857-895 | Of the nodes of a row that share a time, the cycle's own come first, then the adopted ones, each in the order given |
| `LegacyNesting.ApplyLegacyLayout` | legacy_ux/src/utils/cycleLayout.js:704-1076 | The result is the layout of the column, the folded rows and the completed node; a nested cycle has no row of its own |
| `LegacyNesting.DrawnIsConservedIff` | legacy_ux/src/utils/cycleLayout.js:1011-1075 | Nested or not, the result shows every input node exactly as often as given if and only if at most one node is called created and at most one completed |
| `LegacyNesting.DrawnBoxIff` | legacy_ux/src/utils/cycleLayout.js:846-864 | A cycle has a container exactly when some node belongs to it or to a cycle nested in it; a nested cycle has none |
| `LegacyNesting.DrawnBoxesDiffer` | legacy_ux/src/utils/cycleLayout.js:966-995 | No cycle has two containers |
| `LegacyNesting.DrawnParentIsOwner` | legacy_ux/src/utils/cycleLayout.js:1027-1044 | A placed node names as its parent the top-level cycle its own cycle is drawn in, or nothing |
| `LegacyNesting.DrawnDecisionParent` | legacy_ux/src/utils/cycleLayout.js:771-862 | On the drawing: a decision node is drawn in the box of the first listed cycle whose window holds its time, or of the last test cycle around that one if it is a fix cycle, and outside exactly when no window holds the time; every other node is drawn outside |
| `LegacyNesting.DrawnParentsComeFirst` | legacy_ux/src/utils/cycleLayout.js:1052-1075 | Every child stands after its parent's box and inside it |
| `LegacyNesting.DrawnChildrenInOrder` | legacy_ux/src/utils/cycleLayout.js:872-895 | Children of one box, adopted or not, stand left to right in the order of their times, those with timestamps in the order of these |
| `LegacyNesting.RowsStayInTheirWindow` | legacy_ux/src/utils/cycleLayout.js:771-778 | Whatever is drawn in a box, adopted or not, is a decision node whose time lies in that cycle's window |
| `EdgeQuotient.UpdateEdgesForCycles` | legacy_ux/src/utils/cycleLayout.js:1125-1167 | The two loops compute the images of all edges and keep the first of each key |
| `EdgeQuotient.ImageIsLastClaim` | legacy_ux/src/utils/cycleLayout.js:1131-1152 | An end point whose id begins with agent-, a collapsed cycle's name and a dash is drawn as cycle- and that name, the last such cycle deciding; any other, and one only open cycles name, stays itself |
| `EdgeQuotient.KeptIsFirst` | legacy_ux/src/utils/cycleLayout.js:1157-1166 | An edge is kept exactly when no earlier one has the same text of source, arrow and target |
| `EdgeQuotient.KeptInOrder` | legacy_ux/src/utils/cycleLayout.js:1157-1166 | The kept edges stand in the order they were given in |
| `EdgeQuotient.NoKeyTwice` | legacy_ux/src/utils/cycleLayout.js:1157-1166 | No (source, target) key occurs twice in the output |
| `EdgeQuotient.OutputIsImage` | legacy_ux/src/utils/cycleLayout.js:1128-1155 | Every output edge has the id of an input edge and the images of its two end points |
| `EdgeQuotient.AllConnectionsKeptIff` | legacy_ux/src/utils/cycleLayout.js:1157-1166 | No connection between images is lost exactly when edges with the same key text have the same end points |
| `EdgeQuotient.PathsMapToPaths` | legacy_ux/src/utils/cycleLayout.js:1125-1167 | Under that condition every path between nodes is drawn as a path between their images |
| `EdgeQuotient.InputWithoutArrowsTells` | legacy_ux/src/utils/cycleLayout.js:1134-1160 | The condition holds whenever no source id of the edges given contains '>': redirecting brings in no arrow |
| `EdgeQuotient.PathsKeptWithoutArrows` | legacy_ux/src/utils/cycleLayout.js:1125-1167 | Then no connection is lost and every path maps to a path of images |
| `EdgeQuotient.ArrowsHideAnEdge` | legacy_ux/src/utils/cycleLayout.js:1160-1160 | Two edges whose ids contain the arrow text share a key and one of them disappears |
| `EdgeQuotient.UpdateIdempotent` | legacy_ux/src/utils/cycleLayout.js:1125-1167 | A second application changes nothing |
| `EventMerging.MergePipelineRunEvents` | legacy_ux/src/utils/eventMerging.js:123-165 | The loops return the stable sort of the polled events with the accepted live ones, and nothing without a run |
| `EventMerging.MergeContents` | legacy_ux/src/utils/eventMerging.js:123-165 | In order of time, a missing one counting as 0, the result holds every polled event and exactly the live events of that run, with a known time between its start and its end if that is known, that are later than all polled ones; with nothing polled, later than the start |
| `EventMerging.LiveFollowsPolled` | legacy_ux/src/utils/eventMerging.js:150-162 | Sorted polled events come first, accepted live ones after them |
| `EventMerging.SortKeepsSimultaneous` | legacy_ux/src/utils/eventMerging.js:157-162 | Events of one time keep the order they came in |
| `EventMerging.NewEventsInOrder` | legacy_ux/src/utils/eventMerging.js:138-152 | So do the live events that are accepted |
| `EventMerging.MergeAgainChangesNothing` | legacy_ux/src/utils/eventMerging.js:133-152 | Merging the result with the same live events again changes nothing |
| `EventMerging.BatchesAgreeIff` | legacy_ux/src/utils/eventMerging.js:138-162 | Merging live events in two batches gives the very list one merge gives, and even the same contents, exactly when no acceptable event of the second batch is overtaken by the first |
| `EventMerging.LateEventIsDropped` | legacy_ux/src/utils/eventMerging.js:149-150 | An event of time 3 merged after one of time 5 is dropped, merged with it it is shown |
| `ContainerRecovery.StepKeepsInvariant` | src/codetoreum/application/container_recovery_service.py:139-240 | Every step of every task keeps: permits plus tasks at work are the batch size, assessments and results are those of the task alone; and the distance to the end shrinks |
| `ContainerRecovery.AtMostBatchSizeInFlight` | src/codetoreum/application/container_recovery_service.py:139-143 | In every interleaving at most ten containers are between entering and leaving the semaphore, and a waiting one can enter exactly while there are fewer |
| `ContainerRecovery.NoDeadlock` | src/codetoreum/application/container_recovery_service.py:139-246 | Some task can run unless all have finished |
| `ContainerRecovery.RunsEndWithEveryResult` | src/codetoreum/application/container_recovery_service.py:141-246 | Runs are bounded by three steps a container, and one that cannot go on has for every container the result its task has alone |
| `ContainerRecovery.CountResults` | src/codetoreum/application/container_recovery_service.py:248-268 | The two loops count exactly the results of each kind, exceptions as errors |
| `ContainerRecovery.TalliesAreOutcomes` | src/codetoreum/application/container_recovery_service.py:155-268 | The counts of results are the counts of outcomes, and recovered, killed and errors add up to the number of containers |
| `ContainerRecovery.RecoverOrCleanupContainers` | src/codetoreum/application/container_recovery_service.py:92-268 | Whatever the event loop chooses: recovered is the number of containers that the call for their kind assessed as reconnect, whose execution succeeded and whose event was built, killed the same with any other action, errors the rest; a failure before the tasks start ends the call |
| `ContainerRecovery.OtherAssessmentIgnored` | src/codetoreum/application/container_recovery_service.py:145-151 | What the assessment call for the other kind of container would answer changes neither the result nor the outcome |
| `ContainerRecovery.OutcomesAreCounted` | src/codetoreum/application/container_recovery_service.py:155-268 | The outcomes, counted over the containers' own answers |
| `Backoff.DelaysNeverDecrease` | frontend/src/store/websocketStore.ts:80-86 | Delays never decrease and never exceed the maximum |
| `Backoff.DelaysDouble` | frontend/src/store/websocketStore.ts:80-86 | The first delay is the initial one and each further one twice the last, both cut at the maximum |
| `Backoff.DefaultTotals` | frontend/src/store/websocketStore.ts:65-86 | With the default settings there are at most ten delays between two resets, 1000 to 30000 ms, and they total at most 181000 ms, which ten reach |
| `SocketStore.PushKeepsNewest` | frontend/src/store/websocketStore.ts:222-231 | Pushing in front and cutting at 100 keeps exactly the newest accepted messages |
| `SocketStore.TotalBound` | frontend/src/store/websocketStore.ts:264-270 | The first n delays total at most n times the maximum delay |
| `SocketStore.Store.Connect` | frontend/src/store/websocketStore.ts:131-303 | All outcomes of connect; a socket in place loses its close handler first; the store is stuck afterwards exactly when an authenticated connect met a connection under way |
| `SocketStore.Store.OnClose` | frontend/src/store/websocketStore.ts:242-293 | Close 4001 and running out of attempts leave no socket and no timer until someone connects; any other close arms exactly one timer with this attempt's delay |
| `SocketStore.Store.OnOpen` | frontend/src/store/websocketStore.ts:176-183 | Opening resets the attempts, by the handler of the stored socket only |
| `SocketStore.Store.OnMessage` | frontend/src/store/websocketStore.ts:198-235 | Accepted messages enter the buffer, which equals the newest 100 since the last clear; an authentication error closes the socket |
| `SocketStore.Store.OnTimer` | frontend/src/store/websocketStore.ts:278-289 | The timer reconnects only if still authenticated and otherwise leaves a quiet store |
| `SocketStore.Store.Disconnect` | frontend/src/store/websocketStore.ts:305-334 | Disconnect detaches all handlers of the stored socket, starts closing it if it is connecting or open, cancels the timer and resets everything |
| `SocketStore.Store.Perform` | frontend/src/store/websocketStore.ts:131-334 | Every action reaches its handler with what it carries: the close code decides between giving up (4001, or out of attempts) and one more timer, a message enters the buffer; and an open socket is always shown as connected, while a connection that is not there is shown exactly from an authenticated connect of a connected store, or an authentication error, until a socket opens, the stored one reports its end, or disconnect |
| `SocketStore.Store.Run` | frontend/src/store/websocketStore.ts:131-334 | Over any sequence of actions: sockets that can still call back are the stored one, at most one timer and none beside a socket, total delay bounded; and the store ends stuck exactly when it was stuck or an authenticated connect met a connection under way, and no disconnect or unauthenticated connect came later |
| `TaskQueue.FindFirst` | src/codetoreum/application/agent_scheduler.py:588-596 | The scan finds the task with the highest priority, among those the one created first, among those the one stored first |
| `TaskQueue.DequeueIsHeadOfSort` | src/codetoreum/application/agent_scheduler.py:575-607 | A dequeue takes the head of the stable sort by priority and creation time and leaves its tail |
| `TaskQueue.QueueOrder` | src/codetoreum/application/agent_scheduler.py:575-607 | The order in which tasks leave: all of them, higher priority first, then earlier creation time, and tasks equal in both in their storage order |
| `TaskQueue.SetCounts` | src/codetoreum/application/agent_scheduler.py:569-573 | Storing a task under a taken id keeps the per-agent count of tasks plus overwritten ones in step |
| `TaskQueue.InMemoryTaskQueue.Enqueue` | src/codetoreum/application/agent_scheduler.py:569-573 | Enqueue stores or overwrites by id and counts the task in any case |
| `TaskQueue.InMemoryTaskQueue.Dequeue` | src/codetoreum/application/agent_scheduler.py:575-607 | Dequeue answers None exactly on an empty queue; otherwise it takes out one task, no remaining one having a higher priority, or the same and an earlier creation time, and none stored before it being equal in both |
| `TaskQueue.InMemoryTaskQueue.GetQueueDepth` | src/codetoreum/application/agent_scheduler.py:609-611 | The depth is enqueues minus dequeues for the agent, and exceeds the stored tasks by exactly the overwritten ones |
| `TaskQueue.InMemoryTaskQueue.Drain` | src/codetoreum/application/agent_scheduler.py:575-607 | Repeated dequeue returns all stored tasks, by falling priority, then by creation time, then in storage order |
| `Scheduler.StepKeepsInvariant` | src/codetoreum/application/agent_scheduler.py:437-556 | Every enqueue, start, stop, return of a stop, overlapping or not, and step of any consumer keeps: each enqueued task is waiting, in one consumer's hand, executed, failed or overwritten, once each |
| `Scheduler.EveryTaskInOnePlace` | src/codetoreum/application/agent_scheduler.py:504-545 | With distinct ids, at any moment of any run each enqueued task is in exactly one place and execute has been called for it at most once |
| `SchedulerRuns.AtMostOneDispatchAfterStop` | src/codetoreum/application/agent_scheduler.py:459-512 | If no stop returns after a new consumer was started, one consumer is alive at a time, and after stop is signalled at most one more execution begins before the next start |
| `SchedulerRuns.CallsAfterStopBounded` | src/codetoreum/application/agent_scheduler.py:459-512 | In any case at most one execution per consumer ever started begins after that |
| `SchedulerRuns.TwoConsumersCanBeAlive` | src/codetoreum/application/agent_scheduler.py:466-484 | Two overlapping stops with a start between their returns leave two consumers alive: the second return forgets the consumer it did not wait for |
| `SchedulerRuns.TwoCallsAfterStop` | src/codetoreum/application/agent_scheduler.py:466-523 | And then two executions can begin after a stop |
| `SchedulerRuns.FetchedInQueueOrder` | src/codetoreum/application/agent_scheduler.py:504-507 | With no enqueue after some moment, whatever is fetched from then on leaves in the order of the stable sort of the queue at that moment, however many consumers are at work |
| `SchedulerRuns.CallsFollowQueueOrder` | src/codetoreum/application/agent_scheduler.py:504-523 | With all enqueues before the first start, and no late stop, execute is called for the tasks with a work item among a prefix of what draining the queue would give: tasks of that queue, by falling priority and then by creation time |
| `SchedulerRuns.OutcomesAreCounted` | src/codetoreum/application/agent_scheduler.py:515-546 | At every moment of every run a task counts as executed as often as a call of execute for it has returned, and as failed as often as one has raised or it was given up for want of a work item |
| `SchedulerRuns.LeavesWhenStopped` | src/codetoreum/application/agent_scheduler.py:504-504 | A consumer leaves the loop only at its condition, and then exactly when the stop event is set or gone |

## Left out

- ConfigUpdate.ApplyUpdates: dictionaries of the update are stored as fresh copies, so aliasing between a command's own updates and the stored configuration is not modelled.
- ConfigProtocol.StepKeepsInvariant: the store is taken to hand out independent copies and a failing save to write nothing; interleavings on the in-memory store, whose objects are shared, are not modelled beyond ConfigUpdate.MergeIntoCopy and ConfigUpdate.NestedPartSurvivesIff.
- ConfigRaces.AddVariableCanLoseAnyUpdate: encryption, the naming rules of variables and the reserved names are one accepted-or-not flag; the metadata and timestamps of a configuration are not modelled.
- ConfigTree.ComputeChanges: keys are visited in any order, as the report is a dictionary.
- PipelineValidator.ValidatePipelineUpdates: stages whose transitions are not a list of texts raise in the source and are not represented.
- FlowLayout.ApplyCycleLayout: labels, styles and z-order of nodes, which the layout copies, are not represented; the clock is read once per layout instead of once per node.
- FlowPlacement.AgentNodeInItsWindow: asks that the clock had reached the start event, as a clock behind its own events leaves an open cycle without it (FlowPlacement.AgentNodePlacement states that case too).
- CycleDetection.IdentifyCycles: the event and decision lists of a cycle stay empty in the source and are not represented.
- LegacyNesting.DrawnIsConservedIff: cycle boundaries are given, with the distinct ids of the map that holds them; their detection repeats the one of the newer form with four kinds instead of three. The strategy driven by a workflow configuration is not modelled.
- EventMerging.MergePipelineRunEvents: timestamps are given in normalised form; scaling of millisecond numbers and date parsing are not modelled. The functions that keep object references stable would only add easy members.
- ContainerRecovery.RecoverOrCleanupContainers: any task that can run may run next, so the semaphore's first-come order is not used; cancellation from outside, the events emitted, whose failure is caught, and uptimes are not modelled.
- SocketStore.Store.OnOpen: subscriptions and sending are not modelled, nor the unauthorized event to other listeners; the constructor of a socket either succeeds or raises.
- SocketStore.Store.Run: two handlers never run at the same time, as in a browser; actions that cannot happen are skipped.
- SchedulerRuns.AtMostOneDispatchAfterStop: cancelling the consumer after the thirty-second timeout is excluded.
- TaskQueue.InMemoryTaskQueue.Enqueue: how `schedule` forms ids (with a resolution of one second) is represented by ids being arbitrary, taken ones included; its capacity and rate checks are branch reading.
- Other configuration commands take no lock on the project or none at all; they would repeat the lost update.
- Authentication, agent execution recovery, the system status store, HTTP clients, React components and simulation scripts are not part of this model.
