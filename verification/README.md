# NEML2: dependency resolution, asynchronous dispatching, axis layout

This project models the parts of NEML2 in which several pieces of code must agree, and states what they
guarantee together. `dafny verify dfyconfig.toml` checks all of it.

**Dependency resolution** (`Graphs`, `Dependencies`, `Ambiguity`, `DependencyResolver`, `ComposedModel`). From what nodes
consume and provide, the resolver builds item and node graphs, filtered by priority, and searches depth first
from the end nodes. `Dependencies` says what the graphs mean for a set of declarations, `Ambiguity` what
happens when several nodes may provide the same value, `DependencyResolver` has the loops and the recursive three-colour search, and `ComposedModel` says what running the submodels in the
resolved order computes.

**Asynchronous dispatching** (`Protocol`, `Safety`, `Liveness`, `Results`, `Generators`, `Schedulers`,
`Dispatcher`). The main thread, one worker per device, the scheduler's monitor and the queues' monitor form a
transition system with one program counter per thread. A run is any sequence of its steps, with any available
device picked each time. `Generators` and `Schedulers` are the objects on both sides of the protocol, and
`Dispatcher` is the synchronous loop over them.

**Axis layout** (`Ordering`, `AxisTree`, `AxisBuild`, `AxisCache`, `LabeledAxis`). A labeled axis is a tree.
`AxisTree` gives the recursive queries and the flat layout of a tree, `AxisBuild` adds variables and compares
trees, `AxisCache` fills the parallel vectors, and `LabeledAxis` is the object that holds sub-axes and vectors
and answers from the vectors once they are set up.

**Names and shapes** (`Names`, `Shapes`; shared definitions are in `Common`): printing, parsing and remounting of variable names; broadcasting of
any number of shapes.

**The simulation of the hybrid scheduler** (`History`, `Simulation`): the event loop behind the animation in the
documentation, and the histories of dispatches and retrievals that it goes through.

## How to read the model

Ordered containers of pointers are visited in the order of addresses, which the program does not control, so the
resolver's loops pick their next element arbitrarily and every result holds for every order. Ordered maps of
strings are visited in lexicographic order (`Ordering.First`).

Exceptions are results: `Outcome` and `Result` carry the error, and contracts say what has been changed when one
is returned.

In the protocol, every section under a lock is one step. Growing the result vector and writing a slot share no
lock in the program; that each of them is atomic is an assumption of the model.

Rounding of floating-point operations in the simulation is an arbitrary function of the exact result
(`History.Setup.round`), so its results hold for every way of rounding.

Tensors appear as sequences along the dispatched dimension. Preprocessing, the work itself and postprocessing are
one pure function of a slice and a device.

## Where code and documentation disagree

`StaticHybridScheduler.h` (lines 105-116) promises that the available device with the highest availability is
picked. `schedule_work_impl` never stores the highest availability seen so far, so it compares every device with
the lowest double and picks the last available one instead. The model follows the code. `Schedulers.Picked` is the
device it picks, `Schedulers.LowerPriorityPicked` is a concrete list of devices for which the promise fails, and
`Schedulers.HighestPickedIffRising` is the exact condition, for any availability calculator, under which the
documentation is right: the devices are listed by ascending availability, however they are loaded. By default that
means ascending priority (`Schedulers.HighestPickedIffAscending`). The protocol allows any available device
(`Liveness.RunsExtend`, `Schedulers.PickIsLegal`), so its results hold for either behaviour.

With `unique_item_provider` switched off only the first matching provider in the order of node addresses is
recorded, although all of them count as consumed. An acyclic graph can then have nodes that the search never reaches
(`Ambiguity.AmbiguousProviderIsMissed`). `Ambiguity.ResolvesIffRobust` is the exact condition on the declarations
under which resolving succeeds at all addresses: the declared dependencies are acyclic, and every node that is
consumed at all is the only candidate of some consumed item. `DependencyResolver.Resolver.Resolve` states the
outcome of a call for both settings.

## Model

| member | source | states |
|---|---|---|
| DependencyResolver.Resolver.Resolve | include/neml2/models/DependencyResolver.h:358-384 | returns normally if and only if the graphs can be built, the recorded node graph is acyclic and every node is reached from the end nodes; with unique providers, if and only if the declared dependencies are acyclic; in general, whenever the declarations are robust. The resolution then lists all nodes, each once, providers first; otherwise the error names a real cycle, a node that is not reached, or a real fault of the declarations, and never a repeated node |
| DependencyResolver.Resolver.BuildGraph | include/neml2/models/DependencyResolver.h:234-356 | succeeds exactly when the uniqueness flags and the outbound items are satisfied, and then the dictionaries are the adjacency of the declarations |
| DependencyResolver.BuildProviders | include/neml2/models/DependencyResolver.h:248-282 | every consumed item with a candidate is mapped to one candidate, the node graph is the projection of these entries, and the error exhibits an item with several candidates |
| DependencyResolver.BuildConsumers | include/neml2/models/DependencyResolver.h:284-321 | the same for provided items and their first consumer |
| DependencyResolver.AddOutbound | include/neml2/models/DependencyResolver.h:343-355 | additional outbound items add exactly their recorded providers to outbound items and end nodes, or fail on one without provider |
| DependencyResolver.Resolver.Visit | include/neml2/models/DependencyResolver.h:386-416 | keeps the search invariant (nodes marked 1 are exactly the recursion path, nodes marked 2 the resolution, which stays in topological order), terminates, and reports only dependencies that lead back to the node |
| DependencyResolver.Resolver.CheckOnce | include/neml2/models/DependencyResolver.h:370-383 | fails only on a missing node: the branch for a node listed more than once is dead |
| DependencyResolver.EnterNode | include/neml2/models/DependencyResolver.h:386-390 | marking an unvisited dependency extends the recursion path and keeps the search invariant |
| DependencyResolver.LeaveNode | include/neml2/models/DependencyResolver.h:410-415 | with all dependencies resolved, appending the node keeps the order topological and shortens the path |
| DependencyResolver.SearchIsComplete | include/neml2/models/DependencyResolver.h:364-369 | a finished search has listed exactly the nodes reachable from the end nodes |
| DependencyResolver.Resolver.AddNode | include/neml2/models/DependencyResolver.h:204-216 | adds the node and its consumed and provided items and nothing else |
| Graphs.AcyclicIsReached | include/neml2/models/DependencyResolver.h:323-331 | starting only from nodes that nobody needs reaches every node of an acyclic graph |
| Graphs.TopologicalIsAcyclic | include/neml2/models/DependencyResolver.h:364-383 | a complete resolution with providers first exists only for an acyclic graph |
| Dependencies.RecordedMatch | include/neml2/models/DependencyResolver.h:248-282 | a recorded provider carries the value, belongs to another node, has at least the consumer's priority, and is alone |
| Dependencies.ConsumerDepends | include/neml2/models/DependencyResolver.h:284-321 | with unique providers, a recorded consumer depends on the item as its sole recorded provider |
| Dependencies.Duality | include/neml2/models/DependencyResolver.h:248-321 | with unique providers, an item has a consumer entry if and only if it is the recorded provider of some node's item |
| Dependencies.EndNodesAreUnneeded | include/neml2/models/DependencyResolver.h:323-355 | the end nodes are exactly the nodes nobody depends on and the providers of additional outbound items |
| Dependencies.ConsumedOnce | include/neml2/models/DependencyResolver.h:333-341 | every consumed item is inbound or has exactly one recorded provider, never both |
| Dependencies.RecordedIsDeclared | include/neml2/models/DependencyResolver.h:248-282 | with unique providers the recorded graph has exactly the declared dependencies, hence the same cycles |
| Dependencies.AcyclicReachesAll | include/neml2/models/DependencyResolver.h:323-369 | with unique providers, every node of an acyclic graph is reached from the end nodes, although these come from the consumer graph and the search follows the provider graph |
| Dependencies.CyclesShareOnePriority | include/neml2/models/DependencyResolver.h:259-281 | any cycle of the recorded graph lies within one priority class |
| Dependencies.DistinctPrioritiesAcyclic | include/neml2/models/DependencyResolver.h:225-281 | when the stored priorities of all nodes differ pairwise, there is no cycle, whatever is declared |
| Dependencies.NeedsAre | include/neml2/models/DependencyResolver.h:251-265 | what is declared to depend on what, in terms of the stored items and priorities: a shared value, and a provider with no lower priority |
| Dependencies.TopPriority | include/neml2/models/DependencyResolver.h:225-265 | setting a priority above all others takes away all dependencies of the node, and makes it a dependency of every node that shares a value with it |
| Dependencies.StartNodesNeedNothing | include/neml2/models/DependencyResolver.h:323-326 | the start nodes are exactly those without recorded dependencies |
| Dependencies.OutboundChoices | include/neml2/models/DependencyResolver.h:251-282 | every node that provides the value of an additional outbound item may provide it, whatever its priority |
| Dependencies.OutboundItemsAre | include/neml2/models/DependencyResolver.h:338-355 | with unique providers, the outbound items are exactly those that no node takes, and the providers of additional outbound items |
| Ambiguity.ResolvesIffRobust | include/neml2/models/DependencyResolver.h:266-281 | when providers need not be unique, resolving succeeds at all node addresses, and for all choices of a provider, if and only if the declared dependencies are acyclic and every node that is consumed at all is the only candidate of some consumed item |
| Ambiguity.UniqueIsRobust | include/neml2/models/DependencyResolver.h:270-275 | with unique providers this condition is acyclicity of the declared dependencies |
| Ambiguity.SomethingIsBuilt | include/neml2/models/DependencyResolver.h:248-321 | for all addresses of the nodes there are graphs in which the candidate with the lowest address is recorded |
| Ambiguity.AmbiguousProviderIsMissed | include/neml2/models/DependencyResolver.h:266-281 | the smallest case: of two providers of one value the second is never reached |
| ComposedModel.Link | src/neml2/models/ComposedModel.cxx:184-197 | every item with a recorded provider refers to it, and only those |
| ComposedModel.SetValue | src/neml2/models/ComposedModel.cxx:207-229 | in the resolved order no unwritten item is read, and the outputs satisfy the equation of every submodel |
| ComposedModel.ReadsAre | src/neml2/models/ComposedModel.cxx:184-197 | a submodel reads exactly the values it was declared to consume: the output of the recorded provider, or the input of the composition |
| ComposedModel.DemandsAre | src/neml2/models/ComposedModel.cxx:184-197 | and so does the recursive meaning |
| ComposedModel.SolutionIsMeaning | include/neml2/models/DependencyResolver.h:99-112 | outputs that satisfy the equations everywhere are the recursive, demand-driven meaning of the composition |
| ComposedModel.OrderIsIrrelevant | src/neml2/models/ComposedModel.cxx:102-112 | any two evaluations in orders with providers before consumers give every provided item the same value |
| Safety.KeepInv | include/neml2/dispatchers/WorkDispatcher.h:456-525 | every step of every thread keeps the invariant: dispatched slices tile the work so far, loads account for exactly what is in flight, queues hold what was pushed and not started, a slot is filled exactly when its work has been computed, and wake-ups are not lost |
| Safety.KeepReport | include/neml2/dispatchers/WorkDispatcher.h:502-503 | reporting a dispatch never exceeds the capacity of the device that was picked |
| Safety.KeepReporting | src/neml2/dispatchers/SimpleScheduler.cxx:78-83 | a completion never exceeds the load: the underflow assertion does not fire |
| Safety.RunningIsPending | include/neml2/dispatchers/WorkDispatcher.h:493-496 | whoever writes a slot finds it empty, so each slot is written once |
| Safety.IdleIsComputed | src/neml2/dispatchers/WorkScheduler.cxx:115-134 | when a device has no load, everything dispatched to it has its result in its slot |
| Liveness.Progress | include/neml2/dispatchers/WorkDispatcher.h:326-358 | no deadlock: in every state of the invariant that is not final some thread can step |
| Liveness.LoadedCanStep | include/neml2/dispatchers/WorkDispatcher.h:505-513 | no lost wake-up: a loaded device has a worker that can step, unless the main thread is between pushing and notifying |
| Liveness.StepDecreases | include/neml2/dispatchers/WorkDispatcher.h:464-517 | every step lowers a measure, whatever the scheduler picks |
| Liveness.RunsAreShort | include/neml2/dispatchers/WorkDispatcher.h:456-525 | every run satisfies the invariant and is no longer than the initial measure |
| Liveness.RunsExtend | include/neml2/dispatchers/WorkDispatcher.h:456-525 | every interleaving is a run: a run goes on with any step of a thread that is not inside a wait, joining or ended, and with any device that has room for a batch |
| Liveness.MaximalRunsJoin | include/neml2/dispatchers/WorkDispatcher.h:348-358 | a run that cannot go on has joined all workers |
| Results.RunsAreSafe | include/neml2/dispatchers/WorkDispatcher.h:469-517 | in every state of every run a device's load is the number of batches in the tasks that are dispatched and not completed, within capacity, and zero exactly when there are none; workers never fail, and sleep with work or the stop flag set only while being notified |
| Results.ReturnedIsComputed | include/neml2/dispatchers/WorkDispatcher.h:474-525 | what a run returns is, slot by slot, the computation of slices that tile the whole work in order of dispatch |
| Results.OneDeviceIsSync | include/neml2/dispatchers/WorkDispatcher.h:419-525 | with one device every interleaving returns exactly the vector of the synchronous loop |
| Results.AsyncIsSync | include/neml2/dispatchers/WorkDispatcher.h:419-525 | for pointwise, device-independent work every interleaving and choice of devices gives the same concatenated result as the synchronous loop on any device |
| Results.MaximalRuns | include/neml2/dispatchers/WorkDispatcher.h:326-358 | every run that cannot go on has drained all queues, each item started exactly once in push order, also when the dispatcher is destroyed after an error; with positive batch sizes it has returned its results |
| Results.OtherwiseDeadlock | src/neml2/dispatchers/WorkScheduler.cxx:77-79 | the liveness condition is exact: if no device can ever take a batch, all threads end up waiting |
| Dispatcher.RunSync | include/neml2/dispatchers/WorkDispatcher.h:419-452 | without work it returns nothing; otherwise it returns the results of whole batches on the one device that is picked every time, the last one clipped, and fails on an empty batch |
| Generators.SlicesTile | src/neml2/dispatchers/SliceGenerator.cxx:46-53 | for positive requests the slices are non-empty, contiguous, and end where requests or work run out |
| Generators.SlicesDisjoint | src/neml2/dispatchers/SliceGenerator.cxx:46-53 | no two slices overlap |
| Generators.TakeAll | include/neml2/dispatchers/WorkGenerator.h:57-65 | a sequence of `next` calls, as long as there is more, hands out exactly these slices |
| Generators.LoadAll | src/neml2/dispatchers/TensorLoader.cxx:41-48 | the loader hands out exactly the parts of its tensor that these slices cut out |
| Generators.SliceGenerator.Next | include/neml2/dispatchers/WorkGenerator.h:57-65 | hands out the next slice and advances by what was generated; the subtraction does not underflow |
| Generators.TensorLoader.Next | src/neml2/dispatchers/TensorLoader.cxx:41-48 | hands out the next batches; the loader's offset and that of its inner generator agree again afterwards |
| Schedulers.SimpleScheduler.CompletedWork | src/neml2/dispatchers/SimpleScheduler.cxx:78-83 | lowers the load, or fails and changes nothing when more is completed than was dispatched |
| Schedulers.StaticHybridScheduler.ScheduleWork | src/neml2/dispatchers/StaticHybridScheduler.cxx:145-165 | declines exactly when no device is available, and otherwise picks the last available one above the lowest double |
| Schedulers.StaticHybridScheduler.DispatchedWork | src/neml2/dispatchers/StaticHybridScheduler.cxx:167-180 | raises the load of that device only, and fails when it is unknown or oversubscribed |
| Schedulers.StaticHybridScheduler.CompletedWork | src/neml2/dispatchers/StaticHybridScheduler.cxx:182-194 | lowers the load of that device only, or fails and changes nothing |
| Schedulers.HighestPickedIffRising | include/neml2/dispatchers/StaticHybridScheduler.h:105-116 | for any availability calculator, the pick honours the documented rule under all loads if and only if the devices are listed by ascending availability under all loads that leave room for a batch |
| Schedulers.HighestPickedIffAscending | include/neml2/dispatchers/StaticHybridScheduler.h:105-116 | for the default availability, if and only if the devices are listed by ascending priority |
| Schedulers.LowerPriorityPicked | src/neml2/dispatchers/StaticHybridScheduler.cxx:145-165 | the documented rule fails: of two idle devices the one with the lower priority is picked |
| Schedulers.PickIsLegal | src/neml2/dispatchers/StaticHybridScheduler.cxx:145-165 | whatever the scheduler picks is an enabled step of the protocol, after which a batch is generated for that device or an empty one is refused; the protocol falls asleep exactly when the scheduler declines |
| Dispatcher.PickContinues | include/neml2/dispatchers/WorkDispatcher.h:467-474 | a run that is scheduling goes on with the device that the scheduler picks |
| Schedulers.ReportsAgree | src/neml2/dispatchers/StaticHybridScheduler.cxx:167-194 | the scheduler's loads and those of the protocol stay the same under dispatches and completions, and the same of these fail |
| Schedulers.LowestInPowers | src/neml2/dispatchers/StaticHybridScheduler.cxx:149 | the lowest double is the negated difference of the 1024th and the 971st power of two |
| AxisTree.SlotsTile | src/neml2/base/LabeledAxis.cxx:147-193 | at any depth the variable slices in the order of their ids tile the range from 0 to the size, each as long as its shapes say |
| AxisTree.EveryPositionHasOneVariable | src/neml2/base/LabeledAxis.cxx:147-193 | every storage position belongs to exactly one variable |
| AxisTree.InSlots | src/neml2/base/LabeledAxis.cxx:147-193 | the flat layout lists exactly the variables that the recursive queries find, with the slices and shapes obtained by recursion on the name |
| AxisTree.IdOfName | src/neml2/base/LabeledAxis.cxx:318-330 | names and ids are mutual inverses |
| AxisTree.NestedSlice | src/neml2/base/LabeledAxis.cxx:498-514 | the slice of a variable of a sub-axis of any depth is its local slice shifted by the start of the sub-axis, inside the range of that sub-axis |
| AxisTree.VariablesInOrder | src/neml2/base/LabeledAxis.cxx:147-160 | local variables are laid out in the order of a dictionary: in front of another comes a name that is a prefix of it, or has the lesser character where they first differ |
| AxisTree.SubaxesInOrder | src/neml2/base/LabeledAxis.cxx:162-193 | so are local sub-axes |
| AxisTree.VariablesFirst | src/neml2/base/LabeledAxis.cxx:147-193 | all local variables lie in front of all sub-axes and the variables in them |
| AxisTree.StorageIsProduct | src/neml2/base/LabeledAxis.cxx:151 | the length of a slice is the product of the numbers of elements of the intermediate and of the base shape |
| AxisTree.NumelCounts | src/neml2/tensors/shape_utils.cxx:63-68 | the number of elements of a shape is the number of index tuples below it |
| Ordering.SortedIsDictionary | src/neml2/base/LabeledAxis.cxx:147-148 | the keys of the ordered maps are visited in the order of a dictionary |
| AxisBuild.AddSucceeds | src/neml2/base/LabeledAxis.cxx:86-114 | on any axis, adding succeeds if and only if the name is non-empty, no axis on its path is set up, no proper prefix is a variable, and the full name is neither a variable nor a sub-axis |
| AxisBuild.AddToGrown | src/neml2/base/LabeledAxis.cxx:86-114 | on an axis that came about by adding variables, if and only if the name neither extends nor is extended by the name of a variable |
| AxisBuild.AddAdds | src/neml2/base/LabeledAxis.cxx:96-114 | a successful call adds that variable with its shapes and changes no other |
| AxisBuild.AddAllSucceeds | src/neml2/base/LabeledAxis.cxx:86-114 | from an empty axis a sequence of calls succeeds if and only if the names are non-empty, distinct and none is a proper prefix of another; the axis then has exactly these variables |
| AxisBuild.AnyOrder | src/neml2/base/LabeledAxis.cxx:86-114 | any order of the same calls has the same outcome and the same axis |
| AxisBuild.EqualsIffSame | src/neml2/base/LabeledAxis.cxx:536-558 | `equals` holds if and only if the axes differ at most in being set up |
| AxisBuild.EqualAxesSameLayout | src/neml2/base/LabeledAxis.cxx:536-558 | equal axes have identical layouts |
| AxisBuild.SetUpTwice | src/neml2/base/LabeledAxis.cxx:128-194 | a second `setup_layout` changes no axis of the tree |
| AxisCache.AgreesDetermines | src/neml2/base/LabeledAxis.cxx:128-194 | the tree determines every vector, so filling them again gives the same vectors |
| AxisBuild.SetUpKeepsVariable | src/neml2/base/LabeledAxis.cxx:128-194 | setting up changes no answer about a variable or a sub-axis |
| AxisCache.EnterVariables | src/neml2/base/LabeledAxis.cxx:147-160 | the first loop fills the vectors with the layout of the local variables |
| AxisCache.MergeVariables | src/neml2/base/LabeledAxis.cxx:174-189 | the merging loop appends the variables of a sub-axis under its name with shifted slices, and the id map stays the inverse of the name vector |
| AxisCache.CachedVariable | src/neml2/base/LabeledAxis.cxx:300-330 | vectors that agree with a tree contain a name exactly when the recursive query finds it, and its id leads to its size and slice |
| AxisCache.CachedSubaxis | src/neml2/base/LabeledAxis.cxx:432-444 | the same for local sub-axes |
| LabeledAxis.Axis.AddVariable | src/neml2/base/LabeledAxis.cxx:96-114 | does to the object what `Add` does to its tree; a failed call changes nothing, at any depth |
| LabeledAxis.Axis.AddSubaxis | src/neml2/base/LabeledAxis.cxx:86-94 | adds an empty sub-axis unless there is one, and fails on a set-up axis or the name of a variable |
| LabeledAxis.Axis.SetupLayout | src/neml2/base/LabeledAxis.cxx:128-194 | sets up the whole tree in place, and the vectors of every axis then agree with its layout; on an axis that is set up, tree and vectors come out the same |
| LabeledAxis.Axis.Size | src/neml2/base/LabeledAxis.cxx:196-213 | cached or by recursion, the size of the tree |
| LabeledAxis.Axis.SizeOf | src/neml2/base/LabeledAxis.cxx:215-261 | cached or by recursion, the size of the variable or else of the sub-axis with that name, or a failure when there is neither |
| LabeledAxis.Axis.NVariable | src/neml2/base/LabeledAxis.cxx:286-298 | cached or by recursion, the number of slots of the layout |
| LabeledAxis.Axis.HasVariable | src/neml2/base/LabeledAxis.cxx:300-316 | cached or by recursion, whether the tree has the variable |
| LabeledAxis.Axis.VariableId | src/neml2/base/LabeledAxis.cxx:318-330 | the position of the slot of that variable, or a failure |
| LabeledAxis.Axis.VariableSize | src/neml2/base/LabeledAxis.cxx:376-397 | cached or by recursion, the storage size of the variable, or a failure |
| LabeledAxis.Axis.VariableNamesUnsrt | src/neml2/base/LabeledAxis.cxx:332-346 | the recursive listing has exactly the names of the layout, in the order of the ids |
| LabeledAxis.Axis.VariableNames | src/neml2/base/LabeledAxis.cxx:348-353 | the cached listing is the same |
| LabeledAxis.Axis.SubaxisSlice | src/neml2/base/LabeledAxis.cxx:498-514 | the range of a sub-axis of any depth seen from this axis, or a failure |
| LabeledAxis.Axis.Slice | src/neml2/base/LabeledAxis.cxx:263-284 | the slice of a variable, or else the range of a sub-axis, of any depth |
| LabeledAxis.Axis.SubaxisAt | src/neml2/base/LabeledAxis.cxx:452-472 | the object at the end of a path represents the sub-axis there, and its prefix is the whole path |
| LabeledAxis.Axis.Equals | src/neml2/base/LabeledAxis.cxx:536-558 | agrees with equality of the trees |
| Names.Split | src/neml2/misc/string_utils.cxx:51-70 | the loop yields the maximal runs of characters that are no delimiters |
| Names.TokensSplit | src/neml2/misc/string_utils.cxx:51-70 | at every delimiter, and nowhere else, splitting splits: the tokens of both sides are joined, and an empty side has none |
| Names.JoinedBoth | src/neml2/base/LabeledAxisAccessor.cxx:210-220 | the parts of a printed name are separated by a slash |
| Names.Delimiters | src/neml2/base/Parser.cxx:78-85 | the characters at which names are split and those that items must not have |
| Names.MakeValidates | src/neml2/base/LabeledAxisAccessor.cxx:181-190 | a list of items is a name exactly when none is empty or has white space, a period, comma, semicolon or slash |
| Names.SplitInvertsPrint | src/neml2/base/Parser.cxx:78-85 | splitting printed items gives them back if and only if none is empty or contains a character at which names are split |
| Names.ParseInvertsPrint | src/neml2/base/LabeledAxisAccessor.cxx:181-220 | printing a valid name and parsing it gives the same name; whatever parses is valid and is given back by printing and parsing |
| Names.PrintIsInjective | src/neml2/base/LabeledAxisAccessor.cxx:210-220 | different valid names print differently |
| Names.Print | src/neml2/base/LabeledAxisAccessor.cxx:210-220 | the loop prints the items joined by slashes |
| Names.Parse | src/neml2/base/Parser.cxx:78-85 | splits and validates, failing on an invalid item |
| Names.OldAndCurrent | src/neml2/base/LabeledAxisAccessor.cxx:157-179 | `old` is defined exactly on state and forces names, of any depth, where it puts "old_" in front, and `current` exactly on the old ones; they undo each other |
| Names.RemountTwice | src/neml2/base/LabeledAxisAccessor.cxx:109-113 | remounting replaces the first items, or fails when there are not as many; remounting a remounted name is remounting once |
| Names.QualifyAndDisqualify | src/neml2/base/LabeledAxis.cxx:68-84 | `disqualify` is defined exactly below the prefix, and undoes and is undone by `qualify` |
| Shapes.SizesBroadcastable | include/neml2/tensors/shape_utils.h:152-179 | the exact outcome for all sizes in both builds: the first column with a stray size or a misfit decides. For positive sizes it holds if and only if all pairs of shapes fit; with debug checks it holds only for positive sizes |
| Shapes.BroadcastSizes | include/neml2/tensors/shape_utils.h:231-250 | yields the column-wise largest sizes, and with debug checks fails exactly on shapes that do not fit |
| Shapes.MergedExtended | include/neml2/tensors/shape_utils.h:231-250 | shapes are aligned at their ends: one more size at the end of each adds the largest of these, or one, to the end of the broadcast |
| Shapes.CompatibleIffTarget | include/neml2/tensors/shape_utils.h:152-179 | shapes of positive sizes fit pairwise if and only if they have a common target, and then their broadcast is one |
| Shapes.LeastTarget | include/neml2/tensors/shape_utils.h:231-250 | the broadcast expands to every common target |
| Shapes.LeastIsUnique | include/neml2/tensors/shape_utils.h:231-250 | there is only one least target |
| Shapes.AnyPlanMerges | include/neml2/tensors/shape_utils.h:231-250 | broadcasting two at a time, in any order and bracketing, gives the broadcast of all |
| Shapes.AnyPlanWorks | include/neml2/tensors/shape_utils.h:152-179 | no step of such a combination is rejected if and only if all shapes together are not |
| Shapes.OrderIsIrrelevant | include/neml2/tensors/shape_utils.h:231-250 | the order of the shapes and repetitions do not matter |
| Simulation.Scheduler.Simulate | doc/js/components/static-hybrid-scheduler.js:50-117 | terminates when every batch size is positive and within capacity, and produces the events of a complete history: each dispatched and retrieved exactly once, with exactly the shifts that the history gives rise to, which then add up per time |
| History.EachOnce | doc/js/components/static-hybrid-scheduler.js:50-117 | in a complete history every event occurs once as a dispatch and once as a retrieval, the dispatch first |
| History.AlwaysFits | doc/js/components/static-hybrid-scheduler.js:63-102 | after every prefix of a history the outstanding work of each device is within its capacity |
| History.EarliestFirst | doc/js/components/static-hybrid-scheduler.js:87-102 | every retrieval of the main loop takes the earliest of all outstanding events |
| History.MatchesRetrieval | doc/js/components/static-hybrid-scheduler.js:119-131 | the shifts that `dequeue` records are those of the history: one for each other event of the device that is retrieved meanwhile and was not dispatched later |
| History.OneHistory | doc/js/components/static-hybrid-scheduler.js:50-117 | the setup and the amount of work determine the complete history, ties included |
| History.OneOutcome | doc/js/components/static-hybrid-scheduler.js:50-117 | and the events with their shifts |
| History.RetrievedInTime | doc/js/components/static-hybrid-scheduler.js:66-76 | where the quotient is exact, a batch takes the least whole time in which the device at its speed gets through it |
| History.PercentCovers | doc/js/components/static-hybrid-scheduler.js:41-47 | where the quotients are exact, the load in percent is the least whole percentage of the capacity that covers the load |
| Simulation.Dispatch | doc/js/components/static-hybrid-scheduler.js:62-86 | gives the least loaded device a batch that fits it and keeps the invariant: each load is the total size in its queue, within capacity, and each queue holds exactly the outstanding events of its device by time of retrieval |
| Simulation.Wait | doc/js/components/static-hybrid-scheduler.js:87-105 | retrieves the earliest of all outstanding events, of several the one on the first device and dispatched first, shifts exactly the others of its device, and keeps the invariant |
| Simulation.Next | doc/js/components/static-hybrid-scheduler.js:41-47 | the first device with the least load in percent, as rounded by the machine |
| Simulation.Enqueue | doc/js/components/static-hybrid-scheduler.js:133-150 | inserts before the first event that is retrieved later, and sums up the work that is queued |
| Simulation.Dequeue | doc/js/components/static-hybrid-scheduler.js:119-131 | takes the first event and shifts exactly the others that were not dispatched before it |
| Simulation.Consolidate | doc/js/components/static-hybrid-scheduler.js:152-163 | at each time the consolidated shift is the sum of the shifts at that time |
| Simulation.ShiftsAdd | doc/js/components/static-hybrid-scheduler.js:152-163 | the shift at a time adds up over any split of the shifts, and a single shift counts at its own time only |
| Simulation.ShiftsConserved | doc/js/components/static-hybrid-scheduler.js:152-163 | however the times are listed, the table adds up to the sum of all shifts |

## Left out

- Tensor numerics, JIT tracing, derivatives, device transfer, the Newton and line-search solvers: their values are abstract here.
- Threads: spurious wake-ups, exceptions thrown inside the dispatched work, the per-thread initialization before a worker's loop, a second `run` on the same dispatcher, several dispatchers on one scheduler, and the memory model of the result vector.
- DependencyResolver.Resolver.Resolve: an error carries the item or node instead of the message text, and the partly filled dictionaries after a failed `build_graph` are not described.
- DependencyResolver.Resolver.BuildGraph: computes the dictionaries in local values and assigns them in one field at the end, where the program fills member maps in place.
- Schedulers.StaticHybridScheduler.ScheduleWork: NaN and infinite availabilities, and the validation and expansion of options that precede it.
- Dispatcher.RunSync: work without an available device is excluded, because the synchronous loop would then wait for ever.
- LabeledAxis.Axis.AddVariable: changing a sub-axis through a reference to it rather than through its root, `clear` and `set_intmd_sizes`; negative sizes.
- LabeledAxis.Axis.VariableSize: errors do not carry the name, which differs between the cached and the recursive answer.
- LabeledAxis.Axis.SubaxisSlice: an empty path, whose first part is read unchecked.
- AxisCache.MergeVariables: the intermediate and base shapes share one vector.
- `has_subaxis` on a name whose first part is absent, which follows a missing map entry.
- Simulation.Scheduler.Simulate: batch sizes of zero or above the capacity, for which the loop need not end.
- Simulation.Wait: times at or beyond the largest safe integer.
- Simulation.Consolidate: the order in which the consolidated times are listed.
- The animation and drawing, MPI rank splitting, option parsing, the registry and factory, tracing, Python bindings: input, output and plumbing.
