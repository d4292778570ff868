# JANA2, verified

A Dafny model of the state machines, graph searches and text formats at the core of JANA2, the
event-processing framework, with proofs of what they promise. `dafny verify dfyconfig.toml` checks
everything.

Each component is modelled in the form its C++ code has. Code that updates fields or loops is a class
or a method, proved against a function of its inputs or of the old state; the properties are then
proved of those functions, over all inputs, all histories or all interleavings. Where a promise
does not hold for every input, the model keeps the code as it is and proves exactly when it holds.

| files | what they model |
|---|---|
| `Factories`, `LazyEvaluation`, `LazyDemand`, `Multifactories`, `FactorySets` | factories that run on demand: who owns the objects, what is evaluated and when, data that outlives the event, shared outputs, the registry |
| `RunCallbacks`, `Processors` | the run callbacks of factories, multifactories and processors, against one automaton |
| `EventHierarchy`, `HierarchySteps`, `HandBacks`, `EventWitnesses`, `EventObjects` | events that share parents through atomic reference counts, step by step, and the event objects as such a world |
| `EventSources` | the open, emit, skip, limit and close protocol, in its two styles |
| `Graphs`, `Associations`, `CallGraph` | the search through associated objects; ranks and closures of the call graph |
| `XPaths`, `XPathPrinting`, `XPathSearch`, `XPathListing`, `XPathAsking`, `XPathLookups`, `Geometry` | parser, printer and tree search for paths into an XML geometry, listed paths used as search paths, paths that ask for an attribute, and the lookups with their cache |
| `LogBuffer` | the log stream that many threads write to |
| `CalibrationText`, `Calibrations`, `CalibrationTables`, `CalibrationRoundTrip`, `CalibrationDump` | calibration constants in text files |

## Conditions found

- A depth limit makes the association search complete on every graph of n objects if and only if it
  is at most 2 or at least n: in between, the shared set of checked objects can hide a longer detour.
- The rank loop stops the walk over the callees of a node at a call to itself, so later callees do
  not count; the rank claims are stated for the edges it does consider, which are all of them on
  acyclic graphs.
- The two styles of event source agree on every admissible stream if and only if there is no event
  limit or nskip + nevents does not wrap around 2^64. Without overflow, a single stream runs alike in
  both styles if and only if no request reaches a legacy callback that throws "success". An opened
  source has called Open exactly once if and only if it returned at the first request.
- A multifactory runs its Process at most once per event for every order of requests if and only if
  Process sets every declared output and none is regenerated, or there are fewer than two outputs.
- The run callbacks of a factory are well bracketed if and only if no request that finds something to
  process, but the last, carries run number -1; those of a multifactory, if and only if no execution but the
  last does and, once it has finished, there was none at all, since it never ends its last run.
  Init is skipped if and only if a factory is filled from outside first.
- The run callbacks of a processor are well bracketed if and only if it is not initialised after an
  event or a finalisation (nothing prevents that) and, of the events before the first finalisation,
  none carries -1 once it is finalised; until then, the first does not and only -1 follows a -1.
- Objects are owned exactly once if and only if no object is handed over twice.
- The count of an event stays right if and only if it is never reset while a child holds it.
- A released parent event is handed back once more for every SetParent that revives it at count zero,
  and so any number of times. At a hand-back no child lists the parent if and only if no SetParent of
  it is half done, which can happen.
- A printed path whose values hold no slash and no at sign, and whose names hold none of the characters the
  syntax uses, parses back exactly if and only if each value is read back whole: it is empty, or neither
  starts nor ends with a double quote and, when it contains a blank, neither ends with `]` nor contains a single quote.
- A listed path finds its own node if and only if no name on the way has a namespace prefix, each
  printed value is read back whole or not at all, and the first name is not that of the document node
  (a name that is read as `*` fits every node).
- A path that ends in `/@a` asks for attribute a if and only if a has no namespace prefix, or nothing
  after one; otherwise the part after the prefix is taken for a node. A second such section is meant to
  replace the first, but the code then reads past the end of the list of nodes. A qualifier without a value before one with a value makes the parser drop both.
- A file of n values keeps its order through the map with four-digit keys if and only if n is at most
  10000. Pairs come back, as a map or as a vector of values, if and only if
  no key starts with `#`. A table comes back if and only if all rows have the same columns, at least one, and no first value starts with `#`; a
  dumped table if and only if all rows have the same columns, at least one.
- `JFactorySet::Merge` is documented to compare type and tag; the code also compares object name and tag. The model follows the code.

## Model

| member | source | states |
|---|---|---|
| LazyEvaluation.JEvent.GetData | src/libraries/JANA/JFactory.cc:10-41 | asking for a factory's data, with the users' Process calling back into the event, leaves the store and returns the data of the specification function Get |
| LazyEvaluation.JEvent.UserProcess | src/libraries/JANA/JFactory.cc:37-39 | a Process that asks for data as it goes, each request possibly depending on earlier answers |
| LazyEvaluation.JEvent.ReleaseAll | src/libraries/JANA/JFactorySet.cc:226-232 | every factory is cleared for the next event |
| LazyEvaluation.GetLaw | src/libraries/JANA/JFactoryT.h:81-84 | on acyclic requests, one Get returns what plain recursive evaluation gives, touches only factories below in the dependency order, and counts each Process once |
| LazyEvaluation.ValueStable | src/libraries/JANA/JFactory.cc:22-40 | recursive evaluation gives the same data before and after any part of the store is filled in by lazy evaluation |
| LazyEvaluation.EventLaw | src/libraries/JANA/JEvent.h:396-407 | for every sequence of Gets in an event, each returns the value of the initial store, and each Process runs at most once between releases |
| LazyEvaluation.EventIsPure | src/libraries/JANA/JEvent.h:245-266 | one event without persistent factories, from a store in which nothing is held that has still to be processed: each Get returns what recursive evaluation from the inserted data gives, inserted data first |
| LazyEvaluation.GetKeepsSettled | src/libraries/JANA/JFactory.cc:10-41 | evaluation on demand never leaves a factory holding data that it has still to process |
| LazyEvaluation.EventsArePure | src/libraries/JANA/JFactorySet.cc:226-232 | over every sequence of events from new factories, each released, filled and asked in any order, every request of every event returns what recursive evaluation from that event's inserted data gives, and no Process runs more often than there are events |
| LazyDemand.DemandLaw | src/libraries/JANA/JFactory.cc:10-41 | for every sequence of Gets in an event, the Process of a factory runs exactly once if some request needs it, directly or through others, and not at all otherwise |
| LazyDemand.EventsFollowReference | src/libraries/JANA/JFactoryT.h:149-168 | over every sequence of events, with factories of all kinds, every request gets what recursive evaluation that carries along the data of persistent factories gives, and Process runs exactly once in each event that needs it |
| LazyDemand.KeptForGood | src/libraries/JANA/JFactoryT.h:157-159 | what a persistent factory holds after an event it holds after all later ones, if nothing is inserted into it |
| LazyDemand.KeptIsAnswered | src/libraries/JANA/JFactoryT.h:157-159 | and every later request of it gets that data |
| LazyDemand.PersistentRunOnce | src/libraries/JANA/JFactoryT.h:157-159 | the Process of a persistent factory runs at most once over all events |
| Factories.JFactory.Clear | src/libraries/JANA/JFactoryT.h:149-168 | nothing happens before Init or when persistent; otherwise owned objects are deleted, data is emptied and the status goes back |
| Factories.JFactory.SetData | src/libraries/JANA/JFactoryT.h:107-122 | setting by reference replaces the data unless it equals what is held |
| Factories.JFactory.MoveData | src/libraries/JANA/JFactoryT.h:124-129 | setting by move always clears first |
| Factories.JFactory.InsertDatum | src/libraries/JANA/JFactoryT.h:131-135 | one object more, status Inserted even before Init |
| Factories.JFactory.Initialize | src/libraries/JANA/JFactory.cc:43-48 | Init once |
| Factories.JFactory.BeginCreate | src/libraries/JANA/JFactory.cc:10-37 | what Create does up to Process: Init, clearing for regeneration, run callbacks, and whether Process runs |
| Factories.JFactory.EndCreate | src/libraries/JANA/JFactory.cc:38-40 | status after Process |
| Factories.StepConserves | src/libraries/JANA/JFactoryT.h:107-168 | every operation of an owning factory conserves objects: held plus deleted grows by just what is handed over |
| Factories.StepSoundExact | src/libraries/JANA/JFactoryT.h:107-168 | an operation keeps objects from being held or deleted twice if and only if what it hands over is new and without repeats |
| Factories.OwnedExactlyOnce | src/libraries/JANA/JFactoryT.h:107-168 | over any history, every object handed over is held or was deleted, exactly once if and only if none is handed over twice |
| Factories.OthersNeverDelete | src/libraries/JANA/JFactoryT.h:155-164 | a factory that does not own its objects, or is persistent, never deletes any |
| Factories.HistoryContents | src/libraries/JANA/JFactoryT.h:107-168 | the data after any history is what was handed over last and not cleared since, and what was inserted after that |
| Factories.PersistentStays | src/libraries/JANA/JFactoryT.h:157-159 | once a persistent factory has been asked or filled, requests and clearings change nothing at all, until it is filled again |
| Factories.PersistentRunsOnce | src/libraries/JANA/JFactoryT.h:157-159 | over any history a persistent factory runs its Process at most once, and that if and only if it is asked before it is filled |
| Factories.CreationKnown | src/libraries/JANA/JFactoryT.h:107-168 | the creation status says where the data came from, over any history |
| Factories.HistoryIsTrace | src/libraries/JANA/JFactory.cc:10-48 | over any history the callbacks are Init, if called, followed by the trace of the events processed |
| Factories.HistoryRunsProcessed | src/libraries/JANA/JFactory.cc:22-37 | the runs processed are those of the requests that find something to process |
| Factories.FactoryBracketed | src/libraries/JANA/JFactory.cc:22-41 | over any history, a factory's callbacks are well bracketed if and only if no request that finds something to process, but the last, has run -1; Init comes first and once, if and only if the factory was initialised before it was filled |
| Factories.FactoryInOrder | src/libraries/JANA/JFactory.cc:22-41 | without requests of run -1 no callback is ever out of order |
| Factories.FactoryChangesRun | src/libraries/JANA/JFactory.cc:22-36 | over any history ChangeRun is called right before each BeginRun, with its run number, and nowhere else: once for each request that finds something to process in a new run |
| RunCallbacks.TraceExact | src/libraries/JANA/JFactory.cc:22-37 | processing events one after the other is well bracketed if and only if no event before the last has run number -1 |
| RunCallbacks.TracePhase | src/libraries/JANA/JMultifactory.cc:26-46 | where any sequence of processed events leaves the automaton, with and without ChangeRun |
| Multifactories.JMultifactory.Initialize | src/libraries/JANA/JMultifactory.cc:66-75 | Init once |
| Multifactories.JMultifactory.ExecuteAll | src/libraries/JANA/JMultifactory.cc:10-47 | one execution: Init, run callbacks, Process, and the outputs it sets |
| Multifactories.JMultifactory.AnnounceRun | src/libraries/JANA/JMultifactory.cc:19-46 | the callbacks of one execution, in order |
| Multifactories.JMultifactory.UserProcess | src/libraries/JANA/JMultifactory.h:151-170 | SetData is called for the outputs that Process sets, and for no other |
| Multifactories.JMultifactory.GetData | src/libraries/JANA/JMultifactory.h:243-246 | asking a helper for data runs the shared Process through Create |
| Multifactories.JMultifactory.Finalize | src/libraries/JANA/JMultifactory.cc:49-59 | Finish only after Init and only once |
| Multifactories.OneExecution | src/libraries/JANA/JMultifactory.h:151-170 | if Process sets every output, for any order of Gets there is one execution and all data handed out comes from it |
| Multifactories.OneExecutionExact | src/libraries/JANA/JMultifactory.h:243-246 | at most one execution per event for every order of Gets, if and only if all outputs are set and none is regenerated, or there are fewer than two outputs |
| Multifactories.UnsetIsEmpty | src/libraries/JANA/JMultifactory.h:243-246 | an output that Process does not set is handed out empty |
| Multifactories.OncePerEvent | src/libraries/JANA/JMultifactory.cc:10-47 | over any history, with all outputs set and none persistent, Process runs exactly once in each event that asks for something |
| Multifactories.MultiHistoryIsTrace | src/libraries/JANA/JMultifactory.cc:19-75 | over any history, for any setup, order of requests and run numbers, the callbacks are Init followed by the trace of the executions, with Finish put in after the executions that came before it, and the run remembered is the last one's |
| Multifactories.MultiNeverChanges | src/libraries/JANA/JMultifactory.cc:19-46 | a multifactory never calls ChangeRun |
| Multifactories.MultiBracketed | src/libraries/JANA/JMultifactory.cc:19-59 | over any history the callbacks are well bracketed if and only if no execution but the last has run -1 and, once finished, there never was one |
| Multifactories.MultiInOrder | src/libraries/JANA/JMultifactory.cc:19-47 | without events of run -1 no callback is out of order before it is finished |
| Multifactories.FinishInsideRun | src/libraries/JANA/JMultifactory.cc:49-59 | finishing twice adds nothing; Finish finds the run closed if and only if there was no execution |
| Processors.JEventProcessor.DoInitialize | src/libraries/JANA/JEventProcessor.h:36-45 | calls Init whatever the status is, and then counts as initialised |
| Processors.JEventProcessor.DoReduce | src/libraries/JANA/JEventProcessor.h:65-100 | one event: Init, run callbacks, Process and count, or an exception after finalisation |
| Processors.JEventProcessor.DoFinalize | src/libraries/JANA/JEventProcessor.h:103-112 | EndRun of an open run, then Finish, once |
| Processors.ProcessorExact | src/libraries/JANA/JEventProcessor.h:36-112 | over any history of initialisations, events and finalisations, well bracketed if and only if no initialisation comes after an event or a finalisation and, of the events before the first finalisation, none has run -1 once it is finalised; until then, the first has not and only -1 follows a -1; and then Finish has come if and only if it was finalised |
| Processors.ProcessorBracketed | src/libraries/JANA/JEventProcessor.h:65-112 | so every history with initialisation first and without run -1 is well bracketed; and after a finalisation, whatever the history, only an initialisation changes anything |
| Processors.InitsCounted | src/libraries/JANA/JEventProcessor.h:36-71 | Init is called once per initialisation, and once more if the very first thing to happen is an event |
| Processors.EventsCounted | src/libraries/JANA/JEventProcessor.h:65-100 | the event count is the number of Process calls; with initialisation first, these are one for each event before the first finalisation, with its run |
| FactorySets.JFactorySet.Add | src/libraries/JANA/JFactorySet.cc:74-98 | throws just when either key is taken and then changes nothing; otherwise the factory enters both indexes and they stay consistent |
| FactorySets.JFactorySet.Merge | src/libraries/JANA/JFactorySet.cc:159-199 | for every order of the walk: takes just what clashes with nothing in the set as it was, leaves the rest, moves the multifactories, does not prune the donor's names |
| FactorySets.Generate | src/libraries/JANA/JFactorySet.cc:30-32 | filling a temporary set throws if and only if two of the factories conflict; otherwise the set can be merged from and owns just them |
| FactorySets.JFactorySet.MergeAll | src/libraries/JANA/JFactorySet.cc:25-39 | merging each generator's set in turn keeps and leaves behind what the specification says |
| FactorySets.Assemble | src/libraries/JANA/JFactorySet.cc:41-52 | building a set from the source's generator and the default generators throws if and only if one of them makes two factories that conflict; otherwise both indexes agree and, if no factory object comes from two places, the set is first come, first served |
| FactorySets.JFactorySet.GetFactory | src/libraries/JANA/JFactorySet.h:54-77 | lookup by type and tag, then by name and tag, with the level check |
| FactorySets.ExtendsKeepsConsistent | src/libraries/JANA/JFactorySet.cc:82-97 | taking over factories that clash with nothing keeps both indexes holding the same factories under their own keys |
| FactorySets.MergeIsAccepted | src/libraries/JANA/JFactorySet.cc:171-191 | a merge splits the donor's factories into those taken, which conflict with none owned, and those left behind |
| FactorySets.LookupIsScan | src/libraries/JANA/JFactorySet.h:57-76 | a lookup finds the one factory that a scan of all factories would find |
| FactorySets.BuildConserves | src/libraries/JANA/JFactorySet.cc:25-52 | every factory made by the generators is kept or destroyed, never both |
| FactorySets.GreedyExact | src/libraries/JANA/JFactorySet.cc:41-52 | the kept factories are the one set in which a factory is kept if and only if it conflicts with nothing kept that was made before |
| EventHierarchy.JEvent.HasParent | src/libraries/JANA/JEvent.h:136-141 | whether some parent has the level |
| EventHierarchy.JEvent.GetParent | src/libraries/JANA/JEvent.h:143-149 | the only parent of that level, or the exception |
| EventHierarchy.JEvent.SetParent | src/libraries/JANA/JEvent.h:151-159 | throws just on a second parent of the same level; otherwise pushes it and counts one more; levels stay distinct |
| EventHierarchy.JEvent.ReleaseParent | src/libraries/JANA/JEvent.h:161-182 | throws out of order; otherwise pops, counts one less, and hands the parent back just when it was the last reference |
| EventHierarchy.JEvent.Release | src/libraries/JANA/JEvent.h:184-189 | counts one less; throws only if the count was already negative |
| HierarchySteps.StepKeepsSane | src/libraries/JANA/JEvent.h:151-193 | every step of every thread, any Reset included, keeps each child's parent levels distinct |
| HierarchySteps.StepBalance | src/libraries/JANA/JEvent.h:151-193 | every step but its Reset leaves an event's count as right or wrong as it was; its Reset puts it right if and only if no child holds it |
| HierarchySteps.StepKeepsValid | src/libraries/JANA/JEvent.h:151-193 | a step keeps all counts equal to what is left of the own reference plus the children holding the event, if and only if it does not reset an event that a child holds |
| HandBacks.RunKeepsValid | src/libraries/JANA/JEvent.h:151-193 | over every interleaving all counts are right all the time, if and only if no event is ever reset while a child holds it |
| HandBacks.RunKeepsBalance | src/libraries/JANA/JEvent.h:151-193 | one event's count stays right over every interleaving that does not reset it, whatever happens to the others |
| HierarchySteps.ReleaseUndoesSet | src/libraries/JANA/JEvent.h:151-182 | taking a parent and releasing it again, undisturbed, restores every stack and count |
| HandBacks.NeverNegative | src/libraries/JANA/JEvent.h:171-174 | if the own reference is released at most once, ReleaseParent never finds a count below one |
| HandBacks.HandBackLaw | src/libraries/JANA/JEvent.h:151-189 | over every interleaving, hand-backs plus closing Releases equal revivals plus one if the count stands at zero |
| HandBacks.HandedBackOnce | src/libraries/JANA/JEvent.h:161-189 | without revivals a parent is handed back at most once, and just when its count is zero and some ReleaseParent came after its own Release |
| HandBacks.NoRevival | src/libraries/JANA/JEvent.h:151-159 | there is no revival if no SetParent completes after the parent's own Release |
| HandBacks.HandBackExact | src/libraries/JANA/JEvent.h:175-178 | at a hand-back nobody holds the parent, and nobody lists it if and only if no SetParent of it is half done |
| EventWitnesses.HandedBackAgain | src/libraries/JANA/JEvent.h:151-182 | for every n, a run of one life in which a parent is handed back n times by being revived |
| EventWitnesses.HandedBackListed | src/libraries/JANA/JEvent.h:157-172 | a run in which a parent is handed back while another child has listed it and not yet counted itself |
| EventObjects.SetParentAlone | src/libraries/JANA/JEvent.h:151-159 | an undisturbed call on the event objects is the two steps of SetParent in the world of all events, or throws and changes nothing |
| EventObjects.ReleaseParentAlone | src/libraries/JANA/JEvent.h:161-182 | an undisturbed call is the two steps of ReleaseParent, and hands back the parent just when they do |
| EventObjects.ReleaseAlone | src/libraries/JANA/JEvent.h:184-189 | Release is one step of the world |
| EventObjects.ResetAlone | src/libraries/JANA/JEvent.h:191-193 | Reset is one step of the world |
| EventSources.JEventSource.Initialize | src/libraries/JANA/JEventSource.h:119-128 | Init once, from the uninitialised state only |
| EventSources.JEventSource.OpenSource | src/libraries/JANA/JEventSource.h:135-163 | Open from the initialised state only; it stays initialised, and the call is on record, when the user's Open throws |
| EventSources.JEventSource.CloseSource | src/libraries/JANA/JEventSource.h:165-192 | Close from the opened state only |
| EventSources.JEventSource.Next | src/libraries/JANA/JEventSource.h:194-266 | one request in the new style: opening, limit, Emit, skipping and counting |
| EventSources.JEventSource.NextCompatibility | src/libraries/JANA/JEventSource.h:268-333 | one request in the legacy style, statuses thrown by GetEvent |
| EventSources.StylesAgree | src/libraries/JANA/JEventSource.h:194-333 | both styles answer and count alike on every admissible stream, if and only if there is no limit or nskip + nevents does not overflow |
| EventSources.ThrownSuccessExact | src/libraries/JANA/JEventSource.h:268-333 | for every stream within the counter and limits that do not overflow, both styles run alike if and only if no request reaches a callback that throws success |
| EventSources.ThrownSuccessDiffers | src/libraries/JANA/JEventSource.h:330-332 | such a stream exists for all limits |
| EventSources.RunProtocol | src/libraries/JANA/JEventSource.h:135-266 | over every run of an initialised source: Init, then Open until it returns, and never again; Close at most once and last; accepted events just those numbered nskip up to nskip + nevents - 1 |
| EventSources.AnswerExact | src/libraries/JANA/JEventSource.h:194-333 | the answer of every request in either style: it throws if and only if the source is not initialised, Open throws or the callback fails; says try again if and only if the callback does or the event is to be skipped; is finished if and only if the source is closed, the callback is finished or the limit is reached; and succeeds otherwise |
| EventSources.StateExact | src/libraries/JANA/JEventSource.h:194-333 | what every request in either style leaves behind: callbacks made, events counted, opened or closed, and nothing else |
| EventSources.RunsFromInit | src/libraries/JANA/JEventSource.h:119-128 | before the first initialisation nothing changes; what follows it is a run of an initialised source with Init called once |
| EventSources.RefusedBeforeInit | src/libraries/JANA/JEventSource.h:194-200 | before it is initialised every request throws |
| EventSources.OpenCalled | src/libraries/JANA/JEventSource.h:135-163 | over every run, in either style, Open is called once for each request before the first one for which it returns, and once for that one |
| EventSources.AcceptedIsRange | src/libraries/JANA/JEventSource.h:206-247 | the accepted events are a range of the delivered ones |
| EventSources.FinishedForGood | src/libraries/JANA/JEventSource.h:194-266 | after the first FailureFinished every later request returns it |
| EventSources.FinishedOnlyWhen | src/libraries/JANA/JEventSource.h:194-266 | an opened source reports FailureFinished if and only if the user is finished or the limit is reached exactly |
| Associations.AncestorSearch.GetAssociatedAncestors | src/libraries/JANA/JObject.h:355-397 | one recursive call leaves the shared sets as the specification says and restores the depth counter |
| Associations.AncestorSearch.TakeAssociated | src/libraries/JANA/JObject.h:382-394 | what the walk does with one associated object |
| Associations.Get | src/libraries/JANA/JObject.h:320-353 | terminates on every graph, cycles included, and returns the search result |
| Associations.SearchSound | src/libraries/JANA/JObject.h:320-397 | everything found is of the class and reachable within max(1, depth) links |
| Associations.SearchReachesAll | src/libraries/JANA/JObject.h:320-397 | with a depth of at least the number of objects, just all objects of the class reachable in one or more links are found |
| Associations.SearchComplete | src/libraries/JANA/JObject.h:355-397 | with depth at most 2 or at least the number of objects, just the objects of the class within the depth are found |
| Associations.DetourMissed | src/libraries/JANA/JObject.h:355-397 | for every depth from 3 to n - 1 there is a graph of n objects on which an object within the depth is missed |
| Associations.DepthLimitExact | src/libraries/JANA/JObject.h:355-397 | the search is exact on every graph of n objects if and only if depth is at most 2 or at least n |
| CallGraph.PromoteCaller | src/plugins/janaview/JEventProcessor_janaview.cc:284-291 | comparing one caller with its callees raises its rank just above those considered |
| CallGraph.ComputeRanks | src/plugins/janaview/JEventProcessor_janaview.cc:279-295 | the loop terminates when the considered calls are acyclic, and each rank is the length of the longest chain of considered calls below |
| CallGraph.AcyclicAllConsidered | src/plugins/janaview/JEventProcessor_janaview.cc:285-287 | on an acyclic graph every call is considered |
| CallGraph.SettledRanksExist | src/plugins/janaview/JEventProcessor_janaview.cc:279-295 | ranks the loop can stop at exist if and only if the considered calls are acyclic |
| CallGraph.SelfCallHidesCallees | src/plugins/janaview/JEventProcessor_janaview.cc:285-291 | a graph where a call to itself, listed first, keeps the loop from considering a callee |
| CallGraph.GroupByRank | src/plugins/janaview/JEventProcessor_janaview.cc:297-307 | every node is in the group of its rank, once, and groups are ascending |
| CallGraph.FillAncestors | src/plugins/janaview/JEventProcessor_janaview.cc:368-376 | the descending pass gives each node all nodes that reach it |
| CallGraph.FillDescendants | src/plugins/janaview/JEventProcessor_janaview.cc:377-385 | the ascending pass gives each node all nodes it reaches |
| CallGraph.MakeCallGraph | src/plugins/janaview/JEventProcessor_janaview.cc:279-385 | on every acyclic graph: ranks are longest chains, callers rank above callees, and both passes give the transitive closure |
| CallGraph.NestingBounded | src/plugins/janadot/JEventProcessorJANADOT.cc:429-468 | nested calls end if and only if there is no cycle below the start |
| CallGraph.NestingShallow | src/plugins/janadot/JEventProcessorJANADOT.cc:429-468 | when they end, they nest less deep than there are nodes |
| CallGraph.Relatives.FindDescendents | src/plugins/janadot/JEventProcessorJANADOT.cc:429-446 | the recursion terminates and adds the node and all nodes it reaches |
| CallGraph.Relatives.FindAncestors | src/plugins/janadot/JEventProcessorJANADOT.cc:451-468 | the recursion terminates and adds the node and all nodes that reach it |
| CallGraph.FlipClosure | src/plugins/janadot/JEventProcessorJANADOT.cc:451-468 | ancestors are the descendants in the reversed graph |
| CallGraph.FocusRelatives | src/plugins/janadot/JEventProcessorJANADOT.cc:214-218 | the nodes kept around a focus are itself, what it reaches and what reaches it |
| XPaths.ParseXPath | src/libraries/JANA/Compatibility/JGeometryXML.cc:548-688 | parses a path into steps, qualifiers and the attribute asked for, as the specification function does |
| XPaths.SplitPath | src/libraries/JANA/Compatibility/JGeometryXML.cc:575-586 | splits at slashes after the leading ones |
| XPaths.ReadName | src/libraries/JANA/Compatibility/JGeometryXML.cc:592-604 | the node name without namespace, up to the bracket |
| XPaths.ReadAttributes | src/libraries/JANA/Compatibility/JGeometryXML.cc:606-655 | all attributes of a section |
| XPaths.ReadValue | src/libraries/JANA/Compatibility/JGeometryXML.cc:618-638 | the end of a value and the clipping of quotes and brackets |
| XPaths.PlaceSection | src/libraries/JANA/Compatibility/JGeometryXML.cc:657-685 | a section is a step, or a lone attribute that names what is asked for |
| XPathPrinting.AddNodeToList | src/libraries/JANA/Compatibility/JGeometryXML.cc:694-747 | appends the printed path of every node below, in document order, whatever the level |
| XPathPrinting.AttrQualifiers | src/libraries/JANA/Compatibility/JGeometryXML.cc:726-736 | the printed attributes of a node |
| XPathPrinting.ReadBackExact | src/libraries/JANA/Compatibility/JGeometryXML.cc:618-638 | a printed value is read back unchanged if and only if it is clean; single quotes are allowed in values |
| XPathPrinting.AttributeReadBack | src/libraries/JANA/Compatibility/JGeometryXML.cc:609-655 | a printed attribute is read back with its name and its clipped value, wherever it stands |
| XPathPrinting.SectionName | src/libraries/JANA/Compatibility/JGeometryXML.cc:592-604 | the name of a printed section is read back |
| XPathPrinting.SectionQualifiers | src/libraries/JANA/Compatibility/JGeometryXML.cc:606-655 | all attributes of a printed section are read back, any number of them |
| XPathPrinting.AttrsReadBackExact | src/libraries/JANA/Compatibility/JGeometryXML.cc:606-655 | the attribute map is exact if and only if every value is clean |
| XPathPrinting.SplitUndoesJoin | src/libraries/JANA/Compatibility/JGeometryXML.cc:575-586 | splitting a printed path gives its sections |
| XPathPrinting.PathReadBack | src/libraries/JANA/Compatibility/JGeometryXML.cc:548-688 | what parsing makes of any printed path |
| XPathPrinting.RoundTrip | src/libraries/JANA/Compatibility/JGeometryXML.cc:548-747 | parsing a printed path gives back names in order and exact attribute maps, if and only if every value is clean |
| XPathPrinting.GetXPaths | src/libraries/JANA/Compatibility/JGeometryXML.cc:453-465 | every path printed for a legal tree parses back to its steps |
| XPathSearch.CheckQualifiers | src/libraries/JANA/Compatibility/JGeometryXML.cc:843-871 | passes just when every qualifier is met; and the value remembered for the attribute asked for |
| XPathSearch.CheckOne | src/libraries/JANA/Compatibility/JGeometryXML.cc:853-867 | the loop over a node's attributes for one qualifier |
| XPathSearch.SearchParameters.SearchTree | src/libraries/JANA/Compatibility/JGeometryXML.cc:776-902 | the recursive search, threading depth, node and value through fields, adds the hits of the pure definition and restores the depth |
| XPathSearch.SearchParameters.MatchNode | src/libraries/JANA/Compatibility/JGeometryXML.cc:839-886 | one node whose name matches |
| XPathSearch.SearchParameters.SearchForStart | src/libraries/JANA/Compatibility/JGeometryXML.cc:815-836 | looking below for the first step, stopping at the limit |
| XPathSearch.SearchParameters.SearchBelow | src/libraries/JANA/Compatibility/JGeometryXML.cc:888-899 | the children against the next step |
| XPathSearch.FindAttributeValues | src/libraries/JANA/Compatibility/JGeometryXML.cc:752-771 | a whole search from the document |
| XPathSearch.StartsExact | src/libraries/JANA/Compatibility/JGeometryXML.cc:811-837 | matches start at just the shallowest nodes whose name fits the first step |
| XPathSearch.SearchExact | src/libraries/JANA/Compatibility/JGeometryXML.cc:776-902 | without limit, a (node, value) pair is found if and only if a chain of nodes from such a start fits all steps, and the value is that of the asked attribute on that same chain |
| XPathSearch.SearchSeparate | src/libraries/JANA/Compatibility/JGeometryXML.cc:776-902 | in a document of distinct nodes none is found twice |
| XPathSearch.LimitLaw | src/libraries/JANA/Compatibility/JGeometryXML.cc:826-830 | a limited search finds a prefix of the unlimited one, empty only if that is empty, and short of it only when the limit is reached |
| Geometry.JGeometryXML.Get | src/libraries/JANA/Compatibility/JGeometryXML.cc:248-317 | with the cache, returns what a fresh search would, and the cache stays right |
| Geometry.JGeometryXML.GetMultiple | src/libraries/JANA/Compatibility/JGeometryXML.cc:366-402 | all values in the order of the multimap, and whether there are any |
| Geometry.InOrderLaw | src/libraries/JANA/Compatibility/JGeometryXML.cc:879-886 | the multimap holds the same hits, ordered by node |
| Geometry.InOrderStable | src/libraries/JANA/Compatibility/JGeometryXML.cc:879-886 | hits at the same node stay in the order of insertion |
| Geometry.LookupsAgree | src/libraries/JANA/Compatibility/JGeometryXML.cc:248-402 | Get succeeds if and only if GetMultiple finds something, and its value is among those found |
| Geometry.FreshExact | src/libraries/JANA/Compatibility/JGeometryXML.cc:248-317 | Get throws if and only if the path is malformed, finds nothing if and only if a full search does, and otherwise gives the value at the least of the nodes found from the first start that leads to anything |
| XPathListing.PathsAreOfLines | src/libraries/JANA/Compatibility/JGeometryXML.cc:694-747 | the listed paths are those of the lines of descent to the listed nodes, in document order |
| XPathListing.EveryLineListed | src/libraries/JANA/Compatibility/JGeometryXML.cc:696-708 | every node reached through nodes whose names do not begin with `#` is listed |
| XPathListing.OwnStep | src/libraries/JANA/Compatibility/JGeometryXML.cc:806-874 | a node fits what its own printed section is read as, if and only if its name has no prefix (or is read as `*`) and each printed value is read back whole or not at all |
| XPathListing.LineUnique | src/libraries/JANA/Compatibility/JGeometryXML.cc:776-902 | in a document of distinct nodes only one line of descent leads to a node |
| XPathListing.PrintedFindsNode | src/libraries/JANA/Compatibility/JGeometryXML.cc:696-700 | the path printed for a node, at any level of detail, finds that node when parsed and searched for, if and only if all names and printed values on the line can be looked for and the first name is not taken for the document node |
| XPathListing.ListedFindNodes | src/libraries/JANA/Compatibility/JGeometryXML.cc:453-465 | the same of every path listed for a document |
| XPathAsking.AskedAtEnd | src/libraries/JANA/Compatibility/JGeometryXML.cc:664-681 | a printed path and `/@a` is parsed as asking for a of its last node, if and only if a has no namespace prefix or nothing after one |
| XPathAsking.AskedInside | src/libraries/JANA/Compatibility/JGeometryXML.cc:664-681 | a lone attribute between sections is asked for at the depth of the section before it |
| XPathAsking.AskedTwice | src/libraries/JANA/Compatibility/JGeometryXML.cc:664-681 | a second lone attribute reads past the end of the nodes, which the model calls invalid |
| XPathLookups.OnlyLone | src/libraries/JANA/Compatibility/JGeometryXML.cc:657-685 | a path that is only a lone attribute asks for nothing, and finds the document node if that has the attribute |
| XPathAsking.PassedOver | src/libraries/JANA/Compatibility/JGeometryXML.cc:664-685 | a section without a name and without just one attribute is passed over |
| XPathAsking.FlagSection | src/libraries/JANA/Compatibility/JGeometryXML.cc:639-647 | a qualifier without a value accepts any value |
| XPathAsking.QuotedSection | src/libraries/JANA/Compatibility/JGeometryXML.cc:618-638 | plain values are read alike in single quotes, double quotes and without |
| XPathAsking.MixedSection | src/libraries/JANA/Compatibility/JGeometryXML.cc:609-655 | a qualifier without a value before one with a value leaves the section without qualifiers |
| XPathAsking.NamelessSection | src/libraries/JANA/Compatibility/JGeometryXML.cc:648-655 | so does a qualifier without a name |
| XPathAsking.SlashIgnored | src/libraries/JANA/Compatibility/JGeometryXML.cc:575-586 | one more slash at the front of any path changes nothing |
| XPathLookups.AskedFinds | src/libraries/JANA/Compatibility/JGeometryXML.cc:843-886 | asking for attribute a of a node by its printed path finds that node with value v, if and only if v is its value of a, everything else on the line can be looked for, and the first name is not taken for the document node |
| XPathLookups.AskedIsFound | src/libraries/JANA/Compatibility/JGeometryXML.cc:248-317 | and if no other node matches, Get gives that value |
| XPathLookups.AskedTaken | src/libraries/JANA/Compatibility/JGeometryXML.cc:248-317 | Get takes that node, and gives v, if and only if all that holds and the line comes first: no earlier start leads to anything, and no lesser node is found from its own |
| Geometry.ParsedAsksProperly | src/libraries/JANA/Compatibility/JGeometryXML.cc:664-681 | every parsed path has a step, and asks for an attribute only where it also requires it |
| LogBuffer.JStreamLogBuffer.Overflow | src/libraries/JANA/Compatibility/JStreamLogBuffer.cc:47-112 | one character: buffered, or the whole tagged line written |
| LogBuffer.JStreamLogBuffer.WriteOut | src/libraries/JANA/Compatibility/JStreamLogBuffer.cc:105-106 | writing character by character |
| LogBuffer.Prepend | src/libraries/JANA/Compatibility/JStreamLogBuffer.cc:93-100 | time stamp, thread stamp, tag, line |
| LogBuffer.CallAlone | src/libraries/JANA/Compatibility/JStreamLogBuffer.cc:47-112 | the steps of one call that nobody disturbs add up to what the call does |
| LogBuffer.SinkIsLines | src/libraries/JANA/Compatibility/JStreamLogBuffer.cc:91-109 | in every interleaving the sink is whole tagged lines one after the other, but for the one being written |
| LogBuffer.EveryLineTagged | src/libraries/JANA/Compatibility/JStreamLogBuffer.cc:93-100 | every line carries, as configured, the time at which its end was written, the stamp of the thread that wrote it, and the tag |
| LogBuffer.ThreadInOrder | src/libraries/JANA/Compatibility/JStreamLogBuffer.cc:69-85 | each thread's lines come out whole and in order: they are the lines of what it wrote, and its buffer is the rest |
| LogBuffer.HeldUpExact | src/libraries/JANA/Compatibility/JStreamLogBuffer.cc:69-109 | a thread can write if and only if all lines it has ended are written out whole, whatever the others do |
| LogBuffer.LinesAreWhole | src/libraries/JANA/Compatibility/JStreamLogBuffer.cc:75-85 | a line end ends each line and is nowhere else |
| LogBuffer.CharactersConserved | src/libraries/JANA/Compatibility/JStreamLogBuffer.cc:69-109 | what a thread wrote is what came out, what waits, and what is buffered, in this order |
| Calibrations.GetCalibMap | src/libraries/JANA/Calibrations/JCalibrationFile.cc:99-127 | empty and comment lines are skipped; a line of one word gets its number, four places wide, as key; otherwise the first two words are key and value; later keys replace earlier ones |
| Calibrations.GetCalibVector | src/libraries/JANA/Calibrations/JCalibrationFile.cc:165-193 | the values of all data lines in order, without their keys |
| Calibrations.VectorLaw | src/libraries/JANA/Calibrations/JCalibrationFile.cc:165-193 | from any lines, the vector has one entry per data line: the line itself if it is one word, otherwise its second word |
| Calibrations.MapLaw | src/libraries/JANA/Calibrations/JCalibrationFile.cc:99-127 | from any lines, the map is ordered, has just the keys of the data lines, and for each the value of the last data line with it |
| Calibrations.DataLines | src/libraries/JANA/Calibrations/JCalibrationFile.cc:102-104 | data lines are those that are neither empty nor begin with `#` |
| Calibrations.WriteVector | src/libraries/JANA/Calibrations/JCalibration.cc:364-384 | the text is the values of the map in the order of the keys, one per line |
| Calibrations.OrderKept | src/libraries/JANA/Calibrations/JCalibrationFile.cc:110-118 | up to 10000 values keep their order when read as a map, dumped and read as a vector, whatever comments stand between |
| Calibrations.OrderLost | src/libraries/JANA/Calibrations/JCalibrationFile.cc:110-118 | for every greater number there are values whose order is lost |
| Calibrations.OrderExact | src/libraries/JANA/Calibrations/JCalibrationFile.cc:110-118 | n values always keep their order if and only if n is at most 10000 |
| Calibrations.PutCalibMap | src/libraries/JANA/Calibrations/JCalibrationFile.cc:369-387 | the text is the header and one line per entry in key order |
| Calibrations.PairsExact | src/libraries/JANA/Calibrations/JCalibrationFile.cc:99-127 | pairs written and read, with any blanks between key and value, come back unchanged if and only if no key starts with `#` |
| Calibrations.PairVectorExact | src/libraries/JANA/Calibrations/JCalibrationFile.cc:165-193 | pairs written and read as a vector give the values in order if and only if no key starts with `#` |
| Calibrations.WriteCalibFileMap | src/libraries/JANA/Calibrations/JCalibration.cc:389-409 | a dumped map is one line per entry in key order, with a tab between key and value |
| CalibrationTables.GetCalibTable | src/libraries/JANA/Calibrations/JCalibrationFile.cc:231-280 | rows keyed by the last column names seen, unnamed columns by number, and whether rows differ in length |
| CalibrationTables.FillRow | src/libraries/JANA/Calibrations/JCalibrationFile.cc:248-261 | naming columns that have no name and filling one row |
| CalibrationTables.NameAt | src/libraries/JANA/Calibrations/JCalibrationFile.cc:250-258 | the i-th column is called by its name, or by its number if it has none |
| CalibrationTables.DataLineLaw | src/libraries/JANA/Calibrations/JCalibrationFile.cc:245-264 | how any data line is read: a row in which each value goes with its column name or number, the last one winning |
| CalibrationTables.OtherLineLaw | src/libraries/JANA/Calibrations/JCalibrationFile.cc:233-245 | any other line names the columns, if it begins with `#%`, or is skipped |
| CalibrationTables.PutCalibTable | src/libraries/JANA/Calibrations/JCalibrationFile.cc:392-430 | the text is the header, the column names of the first row, and each row's values in that order; nothing without rows; the caller's rows come back with empty values for the columns they lacked |
| CalibrationTables.CompletedFinds | src/libraries/JANA/Calibrations/JCalibrationFile.cc:418-421 | completing a row changes none of its values |
| CalibrationTables.CompletedKeys | src/libraries/JANA/Calibrations/JCalibrationFile.cc:418-421 | completing a row adds the columns that are missing, and no others |
| CalibrationTables.CompleteStays | src/libraries/JANA/Calibrations/JCalibrationFile.cc:418-421 | a row that has all columns is left as it is |
| CalibrationRoundTrip.RoundTripExact | src/libraries/JANA/Calibrations/JCalibrationFile.cc:231-430 | a table of words comes back unchanged and even, if and only if all rows have the same columns, at least one, and no first value starts with `#` |
| CalibrationDump.WriteCalibFileVectorMap | src/libraries/JANA/Calibrations/JCalibration.cc:447-484 | the text is the column names of the first row, then each row's own values, all with blanks before them; nothing without rows |
| CalibrationDump.DumpExact | src/libraries/JANA/Calibrations/JCalibration.cc:463-480 | a dumped table of words is read back unchanged and even, if and only if all rows have the same columns, at least one; no value is taken for a comment |
| CalibrationText.LinesOfUnlines | src/libraries/JANA/Calibrations/JCalibrationFile.cc:231-235 | lines written one after the other are read back |
| CalibrationText.LinesOfText | src/libraries/JANA/Calibrations/JCalibrationFile.cc:231-235 | a last line that is not ended is read all the same |
| CalibrationText.WordsOfText | src/libraries/JANA/Calibrations/JCalibrationFile.cc:248-251 | any text of words with blanks of any kind between them is split into just these words |
| CalibrationText.PaddedMeans | src/libraries/JANA/Calibrations/JCalibrationFile.cc:252-256 | a padded number is that number, with four digits or as many as it needs |
| CalibrationText.PaddedInOrder | src/libraries/JANA/Calibrations/JCalibrationFile.cc:112-117 | below 10000 the keys are ordered as the numbers |

## Left out

- The users' callbacks throwing exceptions: a run ends there, except when a source's Open throws and for the statuses a legacy source throws.
- Casting found objects to a static type in the association search, where a failed cast adds a null; the class is compared by name only. The depth counter is unbounded.
- Missing factories in a strict Get, default tags, `GetAll`, creating a factory on Insert: the lazy evaluation works on factories that exist, and a request for another one gets no data.
- The user's Process in the lazy evaluation: a function of the event and the answers so far, with some bound on the number of requests per call; the order of dependencies is given as a rank.
- LazyEvaluation.EventsArePure: excludes persistent factories, whose data outlives the event by design; LazyDemand.EventsFollowReference covers them.
- HandBacks.HandBackLaw: is about one life of a parent, from Reset to Reset, in which it releases its own reference at most once; other events may be reset at any time.
- The atomicity of `mReferenceCount`: taken as given; each fetch is one step. A child's own list of parents is only used by one thread at a time.
- Adding a multifactory's helpers to a set, `GetAllFactories`, and the clearing and printing of sets: loops over what the modelled operations keep.
- Resources and prefetching of processors, and the locking around their callbacks.
- Closing of event sources that throws, barrier events, `FinishEvent`, the counters of skipped events.
- The call graph's timing, colours, layout and drawing, and the janadot text output.
- Parsing XML into the tree, the checksum of the files, the filter of `GetXPaths` and `NodeCompare`, and the typed `Get` overloads, which convert the found string.
- XPathPrinting.RoundTrip: values that contain a slash or an at sign are outside its domain, as are names with the characters the syntax uses; XPathListing, XPathAsking and XPathLookups have the same domain.
- The mutex that stays locked when a lookup throws while parsing a path of slashes only.
- SetTag and the stamp flags changing while threads write; the flush of the underlying stream.
- Opening, creating and naming calibration files and their free-text header: the header is any comment lines. `WriteCalibFileVectorVector` is `WriteCalibFileVectorMap` without the line of names; the reader into vectors of vectors keeps the values of a table's rows without their names; the typed readers convert the strings.
- Arrows, scheduler, mailboxes, event pool, parameter manager, services, application start and signals, event groups and unfolders, and everything that wraps PODIO, ROOT, CCDB, curl, ZeroMQ or Python.
