# Models of NoveLua's self-contained algorithms

NoveLua is a thin bridge from a host language to the Luau virtual machine, with the Luau source tree beside it. Most of
it forwards calls; a few algorithms carry the weight. Each is modelled here in a module of its own, and what it is for is
proved of it.

| module | algorithm |
|---|---|
| `Wildcmp` | the test framework's glob matcher, which backtracks to the last star only |
| `Subcases` | the replay of nested subcases by running the test body again |
| `ConstraintLists`, `ConstraintGraphs`, `GraphSteps` | the type solver's constraint graph: ordered sets with tombstones, the graph over them as heap objects, and its operations and runs as functions on edge relations |
| `TypeCloners` | the type cloner: a worklist, a memo and a budget of steps over a cyclic graph |
| `DeltaDebug` | the search for a minimal set of flags, sequential and with concurrent tests |
| `AutocompleteProps` | the collection of properties over shared and cyclic types |
| `AstJsonEncoders`, `AstJsonValues`, `Json` | the streaming JSON encoder, against a printer and a reader of JSON, and a decoder of syntax trees |
| `PowerTables`, `CompactPowerTables`, `PowerTableRanges` | the tables of powers of ten, their compressed form, the number printer's way back, and the range in which the approximations are right |
| `JumpBarriers` | the barriers that keep raises of the virtual machine from crossing host frames |
| `ObjectTrees`, `HeapSearches`, `HeapCategories`, `HeapReports` | reachability over heap snapshots, splitting the result by category, and both in one |
| `FlameGraphs` | the layout of flame graphs |
| `Basics` | what these share |

Where the source changes state step by step, the module has a class or a method with the source's fields and loops, proved
against a function or a predicate, and the promises are proved of that. `dafny verify dfyconfig.toml` checks everything.

## Findings

Where the code, its comments and its promises part, the code is modelled and the difference is proved.

- The comment on unblocking a constraint (`ConstraintGraph.cpp:273-277`) says that no type depends on it afterwards. That
  fails for a type that was shifted away from before (`GraphSteps.ShiftedTypeOutwaitsItsConstraint`) and even for one that
  never was (`GraphSteps.TypeCanOutwaitItsConstraint`). `GraphSteps.StillWaitingIffStale` says of every vertex exactly when
  it goes on waiting. For constraints the comment holds always (`GraphSteps.UnblockReleasesConstraints`).
- The assertion in `addDependencyOf` can fail for a type that was shifted away from
  (`GraphSteps.AssertionCanFailOnceShifted`), and for nothing else (`GraphSteps.ReachableInv`).
- In the subcase destructor the branch for subcases whose children are finished inserts the path of the leaf once more,
  which is there already: inner subcases are never marked as traversed (`Subcases.RunState.RunTest`).
- A union returned by a function under `__index` is intersected with everything collected so far. An object keeps its
  own names exactly if at most one option counts or all later options have these names too
  (`AutocompleteProps.IndexUnionTakesAway`); `AutocompleteProps.ObjectLosesItsOwnName` has a graph where it loses one.
- The parallel flag search needs distinct flags, the sequential one does not. A round gets it stuck, cutting slices of no
  flags for ever, exactly if it takes a complement of two or more flags that is shorter than the granularity left
  (`DeltaDebug.StuckIff`); four flags, one of them twice, are led there from the start
  (`DeltaDebug.RepeatedFlagsLeaveEmptySlices`).
- The high bits of a power of two are lost, as ceil(log2 n) is then one less than its bit length
  (`PowerTables.TopOfPowerOf2`). The power tables are right exactly if no quotient is one (`PowerTables.ApproxIsTight`),
  which takes a power of two just above a power of five (`PowerTableRanges.IrregularIffClose`). Down to 10^-350 there is
  none (`PowerTableRanges.TableRangeIsRegular`), and the printer's table ends at 10^-292, so it is not affected. No smaller
  power of ten that is affected is known.
- After `luaW_pcallyieldable` is refused for want of a continuation, the status read is that of an earlier call, and so is
  the first one that a callback reads (`JumpBarriers.LateReads`). All reads are right exactly if every read that does not
  come right after a wrapper finds a status of 0 (`JumpBarriers.ReadsAreRightIff`).
- A split by category loses objects exactly if a category is above 255 or two categories in use have one name
  (`HeapReports.Report`). The array part of a table with weak values counts as strong
  (`HeapSearches.LinksAreReferences`).

## Model

| member | source | states |
|---|---|---|
| `Wildcmp.WildCmp` | src/main/cpp/luau/extern/doctest.h:4065-4099 | The iterative matcher, which backtracks to the last star only, answers true exactly when the pattern can be laid over the text: `*` over any run, `?` over any character, a letter over itself, or, if case is ignored, over a character of the same folding; for every text, pattern and folding that keeps the terminator apart; it terminates |
| `Wildcmp.PlainPattern` | src/main/cpp/luau/extern/doctest.h:4070 | Without wildcards only the pattern itself matches, or, if case is ignored, what is equal to it once both are folded |
| `Wildcmp.MatchIsAlignment` | src/main/cpp/luau/extern/doctest.h:4065-4099 | The recursive meaning holds if and only if the text can be cut into consecutive pieces along the pattern: one character per `?` or letter, any run per `*` |
| `Wildcmp.LastStarSuffices` | src/main/cpp/luau/extern/doctest.h:4077-4094 | Once a second star is reached, whatever a later restart of the first star could match is matched from here |
| `Wildcmp.RestartTooLate` | src/main/cpp/luau/extern/doctest.h:4089-4094 | Once an attempt has used up the text, no later restart of its star can succeed |
| `Subcases.RunState.Construct` | src/main/cpp/luau/extern/doctest.h:4157-4187 | The whole state after a subcase is constructed, in the descending phase and after a leaf has been reached, and whether its body is entered; the subcase stack is never indexed out of range |
| `Subcases.RunState.Destruct` | src/main/cpp/luau/extern/doctest.h:4193-4223 | The whole state after an entered subcase is destroyed |
| `Subcases.RunState.RunBody` | src/main/cpp/luau/extern/doctest.h:4157-4223 | One execution of a body runs exactly the first planned leaf that has not been run, and leaves a next path that stands for exactly the leaves still to come |
| `Subcases.RunState.RunOnce` | src/main/cpp/luau/extern/doctest.h:6921-6964 | One pass of the run loop executes exactly one new leaf, the next one in source order |
| `Subcases.RunState.RunTest` | src/main/cpp/luau/extern/doctest.h:6921-6964 | For every finite tree of distinct siblings the loop ends, executes every root-to-leaf path exactly once and in source order in max(1, number of leaves) runs, and marks exactly the leaves as traversed |
| `Subcases.LeavesAreLeafPaths` | src/main/cpp/luau/extern/doctest.h:4157-4223 | The paths the loop executes are exactly those that end in a childless subcase |
| `Subcases.LeavesInOrder` | src/main/cpp/luau/extern/doctest.h:4157-4223 | Of two paths executed, the first goes to an earlier sibling where they part |
| `Subcases.LeavesAreDistinct` | src/main/cpp/luau/extern/doctest.h:4157-4223 | No path is listed, and so none executed, twice |
| `Subcases.ChildPlanned` | src/main/cpp/luau/extern/doctest.h:4176-4185 | The plan a subcase leaves behind, seen from the body around it, stands for the rest of its leaves and, once it has none, for those of its later siblings |
| `Subcases.ScanComplete` | src/main/cpp/luau/extern/doctest.h:4157-4223 | After a body has been scanned, the planned path covers all its leaves but the one just run |
| `Subcases.NextSiblingPlanned` | src/main/cpp/luau/extern/doctest.h:4176-4185 | Planning for a sibling that was passed by is planning for the leaves of it and of all siblings after it |
| `ConstraintLists.ConstraintList.Insert` | src/main/cpp/luau/Analysis/src/ConstraintGraph.cpp:110-125 | Insertion adds to the set; a vertex seen before keeps its place, a new one comes last in the iteration order |
| `ConstraintLists.ConstraintList.Remove` | src/main/cpp/luau/Analysis/src/ConstraintGraph.cpp:127-142 | Removal takes the vertex out of the set and leaves the order alone |
| `ConstraintLists.ConstraintList.Size` | src/main/cpp/luau/Analysis/src/ConstraintGraph.cpp:288-300 | The counter of live entries is the size of the set |
| `ConstraintLists.ConstraintList.AdvanceUntilPresentOrEnd` | src/main/cpp/luau/Analysis/src/ConstraintGraph.cpp:91-101 | An iterator comes to rest on the next live entry or at the end |
| `ConstraintLists.ListedIsFilter` | src/main/cpp/luau/Analysis/src/ConstraintGraph.cpp:59-101 | What an iterator has yet to yield are the live entries from its position on, each once |
| `ConstraintLists.ListedAppend` | src/main/cpp/luau/Analysis/src/ConstraintGraph.cpp:110-125 | A new entry is yielded after all others |
| `ConstraintLists.ContentsAreMembers` | src/main/cpp/luau/Analysis/src/ConstraintGraph.cpp:151-159 | A full iteration yields exactly the members, each once, as many as the counter says |
| `ConstraintGraphs.ConstraintGraph.FindDependencyList` | src/main/cpp/luau/Analysis/src/ConstraintGraph.cpp:448-458 | The list found or created stands for the edges of its vertex; no edge changes and the other lists stay valid |
| `ConstraintGraphs.ConstraintGraph.FindReverseDependencyList` | src/main/cpp/luau/Analysis/src/ConstraintGraph.cpp:460-470 | The same for reverse edges |
| `ConstraintGraphs.ConstraintGraph.AddDependencyOf` | src/main/cpp/luau/Analysis/src/ConstraintGraph.cpp:161-182 | Both edge relations after a dependency is added, whether it was new, and exactly when the assertion on a known dependency holds |
| `ConstraintGraphs.ConstraintGraph.InheritBlocks` | src/main/cpp/luau/Analysis/src/ConstraintGraph.cpp:194-208 | Both edge relations after everything recorded as waiting for one vertex is made to wait for another too, edge by edge as `GraphSteps.InheritBlocksEdges` says, whatever the list walked shares with the lists written |
| `ConstraintGraphs.ConstraintGraph.UnblockTypeOrPack` | src/main/cpp/luau/Analysis/src/ConstraintGraph.cpp:210-220 | Both edge relations after a type or pack is unblocked, in its two phases |
| `ConstraintGraphs.ConstraintGraph.UnblockConstraint` | src/main/cpp/luau/Analysis/src/ConstraintGraph.cpp:222-286 | Both edge relations after a constraint is unblocked, and the waiting types and packs that are returned |
| `ConstraintGraphs.ConstraintGraph.HasUnsolvedDependencies` | src/main/cpp/luau/Analysis/src/ConstraintGraph.cpp:288-300 | Answers exactly whether the vertex waits for anything |
| `ConstraintGraphs.ConstraintGraph.CopyDependenciesToReachableTypes` | src/main/cpp/luau/Analysis/src/ConstraintGraph.cpp:316-351 | Every given mutable type takes on all dependencies of the list walked, even if it is written at the same time, and the original vertex is forgotten by what it waited for |
| `ConstraintGraphs.ConstraintGraph.ClearReverseDependenciesOf` | src/main/cpp/luau/Analysis/src/ConstraintGraph.cpp:353-370 | Nothing recorded as waiting for the vertex waits for it any longer |
| `ConstraintGraphs.ConstraintGraph.ShiftReferences` | src/main/cpp/luau/Analysis/src/ConstraintGraph.cpp:372-391 | Both edge relations after the edges of a bound type are shifted to its target |
| `ConstraintGraphs.ConstraintGraph.RepairTypeReferences` | src/main/cpp/luau/Analysis/src/ConstraintGraph.cpp:396-427 | The walk along a chain of bound types ends because of its seen set, and shifts the edges of each member to the root in order |
| `ConstraintGraphs.ConstraintGraph.CopyDependenciesOf` | src/main/cpp/luau/Analysis/src/ConstraintGraph.cpp:432-443 | Both edge relations after dependencies are copied to the mutable types of a target |
| `GraphSteps.AddEdges` | src/main/cpp/luau/Analysis/src/ConstraintGraph.cpp:161-182 | Adding a dependency adds that edge and no other |
| `GraphSteps.InheritBlocksEdges` | src/main/cpp/luau/Analysis/src/ConstraintGraph.cpp:194-208 | After inheriting, exactly what was recorded as waiting for the existing vertex waits for the new one too, and is recorded there; no other edge changes |
| `GraphSteps.InheritedWaitPersists` | src/main/cpp/luau/Analysis/src/ConstraintGraph.cpp:179-208 | Over all runs: what waits for a vertex when a constraint inherits its blocks, and was never shifted away from, waits for that constraint until it is unblocked, whatever happens before, the unblocking of the first vertex included |
| `GraphSteps.InheritedWaitEnds` | src/main/cpp/luau/Analysis/src/ConstraintGraph.cpp:222-286 | And once it is unblocked no constraint waits for it |
| `GraphSteps.CopyOfEdges` | src/main/cpp/luau/Analysis/src/ConstraintGraph.cpp:432-443 | Every mutable type of the target is linked, in both directions, to all that the source waits for; the source keeps what it waits for, and no other edge changes |
| `GraphSteps.ShiftReferencesEdges` | src/main/cpp/luau/Analysis/src/ConstraintGraph.cpp:372-391 | The same for shifting, edge by edge, with the source taken out of the records and everything recorded as waiting for it released |
| `GraphSteps.UnblockTypeEdges` | src/main/cpp/luau/Analysis/src/ConstraintGraph.cpp:210-220 | Unblocking a type ends no wait for a constraint, and adds exactly those of the chain to the mutable types of its root |
| `GraphSteps.UnblockEdges` | src/main/cpp/luau/Analysis/src/ConstraintGraph.cpp:222-286 | Unblocking a constraint does that to the waits for all others, for each type recorded as waiting for it |
| `GraphSteps.UnblockTypeWaits` | src/main/cpp/luau/Analysis/src/ConstraintGraph.cpp:210-220 | Of a constraint's waits for types, unblocking a type ends exactly those for its chain and its root |
| `GraphSteps.UnblockWaits` | src/main/cpp/luau/Analysis/src/ConstraintGraph.cpp:222-286 | And unblocking a constraint exactly those for the chains of the types recorded as waiting for it |
| `GraphSteps.UnblockTypeRecords` | src/main/cpp/luau/Analysis/src/ConstraintGraph.cpp:210-220 | Who is recorded as waiting for a constraint after a type is unblocked: the mutable types of the root for what its chain waited for, and not the chain any longer |
| `GraphSteps.UnblockRecords` | src/main/cpp/luau/Analysis/src/ConstraintGraph.cpp:222-286 | The same after a constraint is unblocked, for all other constraints |
| `GraphSteps.UnblockKeepsRecord` | src/main/cpp/luau/Analysis/src/ConstraintGraph.cpp:222-286 | The record of the constraint itself is kept, and grows by the stale waits handed on |
| `GraphSteps.ChainSetIs` | src/main/cpp/luau/Analysis/src/ConstraintGraph.cpp:396-427 | A repair visits exactly the types that the bindings lead to before they come to the root or to one visited before |
| `GraphSteps.StepHistory` | src/main/cpp/luau/Analysis/src/ConstraintGraph.cpp:161-443 | A type becomes stale only where it is shifted away from, by itself or in a repair |
| `GraphSteps.StepKeepsInv` | src/main/cpp/luau/Analysis/src/ConstraintGraph.cpp:161-443 | Every operation keeps the invariant: what waits for a vertex is recorded there unless it is a type that has been shifted away from, and no unblocked constraint is recorded with waiters |
| `GraphSteps.RunKeepsInv` | src/main/cpp/luau/Analysis/src/ConstraintGraph.cpp:161-443 | So does every run of operations |
| `GraphSteps.ReachableInv` | src/main/cpp/luau/Analysis/src/ConstraintGraph.cpp:161-177 | In every reachable state a dependency of a constraint, or of a type never shifted away from, is recorded in reverse, so the assertion in `addDependencyOf` cannot fail there |
| `GraphSteps.DependencyPersists` | src/main/cpp/luau/Analysis/src/ConstraintGraph.cpp:161-300 | Once anything depends on a constraint, it keeps depending on it through inheriting, copying, shifting and unblocking of types until that constraint is unblocked |
| `GraphSteps.UnblockReleasesConstraints` | src/main/cpp/luau/Analysis/src/ConstraintGraph.cpp:222-286 | Right after a constraint is unblocked no constraint depends on it |
| `GraphSteps.StillWaitingIffStale` | src/main/cpp/luau/Analysis/src/ConstraintGraph.cpp:222-286 | Right after a constraint is unblocked a vertex still depends on it if and only if it did before without being recorded there, which takes a type that was shifted away from, or a repaired chain runs through such a type and the root of the chain reaches the vertex |
| `GraphSteps.ShiftedTypeOutwaitsItsConstraint` | src/main/cpp/luau/Analysis/src/ConstraintGraph.cpp:273-277 | A run of three operations from the empty graph after which a type that was shifted away from keeps waiting, against what the comment in the code says |
| `GraphSteps.TypeCanOutwaitItsConstraint` | src/main/cpp/luau/Analysis/src/ConstraintGraph.cpp:273-277 | A run from the empty graph in which that happens to a type that was never shifted away from |
| `GraphSteps.AssertionCanFailOnceShifted` | src/main/cpp/luau/Analysis/src/ConstraintGraph.cpp:161-177 | A run after which the assertion in `addDependencyOf` fails, for a type that has been shifted away from |
| `GraphSteps.RepairMovesReferences` | src/main/cpp/luau/Analysis/src/ConstraintGraph.cpp:372-427 | After a repair no constraint and no type never shifted away from waits for a chain member, and every constraint that chain members waited for is linked, in both directions, to every mutable type reachable from the root |
| `GraphSteps.UnblockTypeReleasesAll` | src/main/cpp/luau/Analysis/src/ConstraintGraph.cpp:210-220 | Unblocking a type leaves nothing but stale types waiting for it, for its chain or for its root |
| `GraphSteps.RunKeepsTyping` | src/main/cpp/luau/Analysis/src/ConstraintGraph.cpp:161-443 | If callers never make a type wait for a type, no run brings that about |
| `TypeCloners.TypeCloner.Clone` | src/main/cpp/luau/Analysis/src/Clone.cpp:66-95 | A clone succeeds if and only if there is no limit, nothing to copy, or steps so far plus nodes to copy plus one stay below the limit; then exactly what references lead to from the start, past no shared node, has been copied, each copy is its original field by field but for its scope and its persistence, with every reference led to the copy of what it led to, old copies are reused, the source is as it was and nothing is pending; once exceeded the limit stays exceeded and the result is the error type |
| `TypeCloners.TypeCloner.CloneReachable` | src/main/cpp/luau/Analysis/src/Clone.cpp:66-122 | The steps taken are the nodes copied, and the budget is exceeded exactly if these are too many |
| `TypeCloners.TypeCloner.Run` | src/main/cpp/luau/Analysis/src/Clone.cpp:105-122 | Steps plus queued clones always equal the clones made so far; the worklist ends; the source nodes stay as they are |
| `TypeCloners.TypeCloner.ShallowClone` | src/main/cpp/luau/Analysis/src/Clone.cpp:159-203 | A node is copied at most once, bound nodes are followed, persistent ones shared unless forced |
| `TypeCloners.TypeCloner.CloneChildren` | src/main/cpp/luau/Analysis/src/Clone.cpp:226-478 | Every reference of a clone is redirected to the copy of what it leads to |
| `TypeCloners.TypeCloner.Find` | src/main/cpp/luau/Analysis/src/Clone.cpp:125-156 | A reference to a node of the source is settled if and only if the node is copied already or not to be copied, and then the answer is its image; a clone that is not persistent is found only through the memo |
| `TypeCloners.State.ClonesMirror` | src/main/cpp/luau/Analysis/src/Clone.cpp:159-203 | A finished clone has the kind of its original, no scope where the original can have one, as many references, each led to the copy of what it led to or to a shared node, and is not persistent; of persistent nodes only the forced one is copied |
| `TypeCloners.Source.NeededIsReached` | src/main/cpp/luau/Analysis/src/Clone.cpp:66-203 | The least set is what is known and what chains of references lead to |
| `TypeCloners.Source.NeededCovers` | src/main/cpp/luau/Analysis/src/Clone.cpp:66-203 | The least set of nodes to copy has the start and is closed under the references that are copied |
| `TypeCloners.State.FinishedIsNeeded` | src/main/cpp/luau/Analysis/src/Clone.cpp:105-122 | With nothing pending exactly the needed nodes have been copied |
| `TypeCloners.State.NoReferenceBack` | src/main/cpp/luau/Analysis/src/Clone.cpp:226-478 | No clone refers to a source node that was copied |
| `TypeCloners.State.WalksCommute` | src/main/cpp/luau/Analysis/src/Clone.cpp:66-478 | Cycles and all: every path of references through the source leads, in the copy, to the image of where it leads in the source |
| `TypeCloners.State.ImagesAgree` | src/main/cpp/luau/Analysis/src/Clone.cpp:125-203 | Sharing is kept: two references have one image if and only if they lead to one node |
| `TypeCloners.MemoIsInjective` | src/main/cpp/luau/Analysis/src/Clone.cpp:159-203 | Different nodes have different copies |
| `DeltaDebug.PairwiseDisjoints` | src/main/cpp/luau/tools/flag-bisect.py:249-254 | The slices are consecutive, not empty, no longer than the slice length, and together the whole list |
| `DeltaDebug.DdMin` | src/main/cpp/luau/tools/flag-bisect.py:261-290 | With a deterministic oracle the search ends, and what it returns is a subsequence that is the input or was reported hot; of two or more flags left none can be dropped and none suffices alone; it needs no distinct flags for that |
| `DeltaDebug.Round` | src/main/cpp/luau/tools/flag-bisect.py:302-350 | For every order in which the jobs of a round end, it goes on with a hot slice or a hot complement of one, or none of them is hot; if none is hot at full granularity the flags are minimal |
| `DeltaDebug.DdMinParallel` | src/main/cpp/luau/tools/flag-bisect.py:292-350 | The parallel search keeps the same promises for distinct flags, whatever the order of completion |
| `DeltaDebug.RepeatedFlagsLeaveEmptySlices` | src/main/cpp/luau/tools/flag-bisect.py:292-350 | From four flags, one of them twice, every order of completion leads the search in two rounds to a granularity above the number of flags, where slices are empty |
| `DeltaDebug.StuckIff` | src/main/cpp/luau/tools/flag-bisect.py:292-350 | A round leads there if and only if it takes a complement of at least two flags that is shorter than the granularity left; then flags of the slice taken away are repeated outside of it |
| `DeltaDebug.SearchGoesOn` | src/main/cpp/luau/tools/flag-bisect.py:268-288 | Both ways to shrink keep the search valid: a slice restarts at granularity 2, a complement keeps the granularity within its length |
| `DeltaDebug.GranularityFits` | src/main/cpp/luau/tools/flag-bisect.py:249-288 | With granularity at most the length, slices are not empty and taking one away leaves room for one slice less |
| `DeltaDebug.SliceLength` | src/main/cpp/luau/tools/flag-bisect.py:249-254 | The slices are as long as so many can be, and no longer |
| `DeltaDebug.ComplementCounts` | src/main/cpp/luau/tools/flag-bisect.py:256-259 | A complement keeps every other flag, as often as it was there |
| `DeltaDebug.ComplementOfSlice` | src/main/cpp/luau/tools/flag-bisect.py:256-259 | Without repeated flags the complement of a slice is what stands before and after it |
| `DeltaDebug.SubsequenceTransitive` | src/main/cpp/luau/tools/flag-bisect.py:261-290 | Shrinking step by step stays within the initial flags |
| `AutocompleteProps.Completion.Complete` | src/main/cpp/luau/Analysis/src/AutocompleteCore.cpp:303-602 | The recursion ends on every finite graph, shared and cyclic ones too, although most of what has been seen is forgotten between the options of a union, and adds only names that some type it can get to lets one read, with the type they have there, and nothing for a type that is marked already; where nothing is met again while it is marked, its inserting and erasing leaves what the recursive description says |
| `AutocompleteProps.UnsharedIsFresh` | src/main/cpp/luau/Analysis/src/AutocompleteCore.cpp:303-602 | On a tree of types nothing is met again while it is marked |
| `AutocompleteProps.OptionsMayShare` | src/main/cpp/luau/Analysis/src/AutocompleteCore.cpp:510-589 | Nor is it in a union whose options have types in common, if the first has no union or intersection in it |
| `AutocompleteProps.Completion.FillProps` | src/main/cpp/luau/Analysis/src/AutocompleteCore.cpp:402-439 | Readable properties are added, names that are there take precedence |
| `AutocompleteProps.Completion.RemoveMissing` | src/main/cpp/luau/Analysis/src/AutocompleteCore.cpp:575-588 | Exactly the names that the option lacks are erased |
| `AutocompleteProps.Completion.CompleteMetatable` | src/main/cpp/luau/Analysis/src/AutocompleteCore.cpp:487-495 | The table is completed first, then what `__index` leads to |
| `AutocompleteProps.Completion.CompleteParts` | src/main/cpp/luau/Analysis/src/AutocompleteCore.cpp:496-509 | Every part is completed by itself, and what is new is added |
| `AutocompleteProps.Completion.CompleteOptions` | src/main/cpp/luau/Analysis/src/AutocompleteCore.cpp:510-589 | The first option that counts is completed, then cut down to what each other one has |
| `AutocompleteProps.Graph.RankFalls` | src/main/cpp/luau/Analysis/src/AutocompleteCore.cpp:545-570 | Why it ends: of what is seen, the unions and intersections survive, and a union adds itself |
| `AutocompleteProps.Graph.ChildrenAre` | src/main/cpp/luau/Analysis/src/AutocompleteCore.cpp:441-602 | Where completing goes on: to the parts of an intersection, to the options of a union that count, in order, to the table of an object, to the parent of an extern type, and to what is under `__index` of a metatable, if that is a table or an object, or else to what a function there returns first |
| `AutocompleteProps.ObjectDenotes` | src/main/cpp/luau/Analysis/src/AutocompleteCore.cpp:441-495 | An object lets one read all that its table does, and all that the table under `__index` of its metatable does |
| `AutocompleteProps.FallsBackDenoted` | src/main/cpp/luau/Analysis/src/AutocompleteCore.cpp:441-602 | Whatever a type falls back on is read through it |
| `AutocompleteProps.FirstWins` | src/main/cpp/luau/Analysis/src/AutocompleteCore.cpp:402-509 | What has been collected keeps its type, unless an indexer has the name |
| `AutocompleteProps.DerivedWins` | src/main/cpp/luau/Analysis/src/AutocompleteCore.cpp:402-439 | What an extern type declares wins over its ancestors |
| `AutocompleteProps.TableWins` | src/main/cpp/luau/Analysis/src/AutocompleteCore.cpp:487-495 | What the table of an object has wins over what it falls back on |
| `AutocompleteProps.IndexerWins` | src/main/cpp/luau/Analysis/src/AutocompleteCore.cpp:475-486 | After a point, the last string singleton of an indexer wins over all properties of its name |
| `AutocompleteProps.CompletedDenotes` | src/main/cpp/luau/Analysis/src/AutocompleteCore.cpp:402-602 | From an empty result, for types without unions under `__index`, the names are exactly the readable ones: of all options of a union, of any part of an intersection, of an object and what it falls back on |
| `AutocompleteProps.AddsDenoted` | src/main/cpp/luau/Analysis/src/AutocompleteCore.cpp:402-509 | A type that is no union adds exactly its readable names to what has been collected |
| `AutocompleteProps.UnionKeepsCollected` | src/main/cpp/luau/Analysis/src/AutocompleteCore.cpp:510-589 | A union completed on top of collected names keeps them if and only if its other options have all of them |
| `AutocompleteProps.IndexUnionTakesAway` | src/main/cpp/luau/Analysis/src/AutocompleteCore.cpp:441-463 | So an object whose `__index` function returns a union is suggested exactly its readable names if and only if at most one option counts or all later options have every name of the object itself |
| `AutocompleteProps.ObjectLosesItsOwnName` | src/main/cpp/luau/Analysis/src/AutocompleteCore.cpp:441-463 | A graph of eight types, nothing of which is met twice, where an object has a readable name that is not suggested |
| `AutocompleteProps.OwnKeys` | src/main/cpp/luau/Analysis/src/AutocompleteCore.cpp:402-486 | What a type adds by itself: its readable properties and the string singletons of its indexer |
| `AstJsonEncoders.AstJsonEncoder.AppendChunk` | src/main/cpp/luau/Analysis/src/AstJsonEncoder.cpp:50-71 | Whatever the sizes, the joined chunks are all bytes written, and the last chunk has room |
| `AstJsonEncoders.AstJsonEncoder.Str` | src/main/cpp/luau/Analysis/src/AstJsonEncoder.cpp:27-30 | The text returned is everything written, in order |
| `AstJsonEncoders.AstJsonEncoder.WriteString` | src/main/cpp/luau/Analysis/src/AstJsonEncoder.cpp:134-173 | A string is written as the JSON string for it |
| `AstJsonEncoders.AstJsonEncoder.WriteLocation` | src/main/cpp/luau/Analysis/src/AstJsonEncoder.cpp:240-254 | A location is written as a JSON string |
| `AstJsonEncoders.AstJsonEncoder.WriteItem` | src/main/cpp/luau/Analysis/src/AstJsonEncoder.cpp:100-403 | Every piece of syntax is written as its JSON value, and the comma flag ends as it was |
| `AstJsonEncoders.AstJsonEncoder.WriteNode` | src/main/cpp/luau/Analysis/src/AstJsonEncoder.cpp:277-287 | A node is the JSON object of its type, its location and its properties, commas and all |
| `AstJsonEncoders.AstJsonEncoder.WriteBlock` | src/main/cpp/luau/Analysis/src/AstJsonEncoder.cpp:707-730 | A block, which writes part of its fields without regard to the comma flag, is a JSON object too |
| `AstJsonEncoders.AstJsonEncoder.WriteList` | src/main/cpp/luau/Analysis/src/AstJsonEncoder.cpp:388-403 | A list is separated by commas, whatever the flag was |
| `AstJsonEncoders.AstJsonEncoder.WriteFields` | src/main/cpp/luau/Analysis/src/AstJsonEncoder.cpp:88-98 | Each field has a comma in front unless it is the first of its object |
| `AstJsonEncoders.LocationIsPlain` | src/main/cpp/luau/Analysis/src/AstJsonEncoder.cpp:240-254 | The text of a location has nothing to escape, so writing it raw is writing it as a string |
| `AstJsonEncoders.WritableIsPrintable` | src/main/cpp/luau/Analysis/src/AstJsonEncoder.cpp:16-403 | The JSON value of every tree of finite numbers is one that can be read back |
| `AstJsonEncoders.Encode` | src/main/cpp/luau/Analysis/src/AstJsonEncoder.cpp:1581-1586 | The text of a tree is what a printer without any flag prints; a reader gets its value back with nothing left over, and a decoder gets the tree itself back, told only which strings are locations and which objects are nodes or blocks |
| `AstJsonEncoders.EncodeWithComments` | src/main/cpp/luau/Analysis/src/AstJsonEncoder.cpp:1588-1598 | The same for a tree with the comments of its file |
| `AstJsonValues.JsonIsRead` | src/main/cpp/luau/Analysis/src/AstJsonEncoder.cpp:100-403 | Every piece of syntax is read back from its value: names, texts, numbers, kinds, locations and the order of everything |
| `AstJsonValues.LocationIsRead` | src/main/cpp/luau/Analysis/src/AstJsonEncoder.cpp:240-254 | A location is read back: its four numbers, in their order |
| `Json.Notation` | src/main/cpp/luau/Analysis/src/AstJsonEncoder.cpp:72-110 | Literal names, brackets, braces, commas and colons are those of JSON |
| `Json.Escapes` | src/main/cpp/luau/Analysis/src/AstJsonEncoder.cpp:134-173 | And so are the escapes |
| `Json.ReadEscaped` | src/main/cpp/luau/Analysis/src/AstJsonEncoder.cpp:134-173 | Reading an escaped string gives the string back |
| `Json.ReadPrinted` | src/main/cpp/luau/Analysis/src/AstJsonEncoder.cpp:277-403 | Reading a printed value gives the value back, whatever follows it |
| `Json.PrintIsInjective` | src/main/cpp/luau/Analysis/src/AstJsonEncoder.cpp:277-403 | Different values have different texts |
| `PowerTables.High128` | src/main/cpp/luau/tools/numprint.py:15-23 | The loop over single bits computes a shift: the bits below position ceil(log2 n), as many as fit, at the top of 128 |
| `PowerTables.Pow10` | src/main/cpp/luau/tools/numprint.py:25-36 | The value of each of the three branches |
| `PowerTables.TopIsNormal` | src/main/cpp/luau/tools/numprint.py:15-23 | Unless n is a power of two, what is kept is n with its leading one moved to bit 127, cut off below |
| `PowerTables.TopOfPowerOf2` | src/main/cpp/luau/tools/numprint.py:15-23 | Of a power of two nothing is kept |
| `PowerTables.LosesBits` | src/main/cpp/luau/tools/numprint.py:29 | The condition for rounding up, `5**n >= 2**128`, holds exactly when bits are cut off |
| `PowerTables.FractionBrackets` | src/main/cpp/luau/tools/numprint.py:31-36 | For a negative exponent the integer quotient lies strictly below the scaled power and less than one away from it |
| `PowerTables.WindowIsUnique` | src/main/cpp/luau/tools/numprint.py:25-36 | A real number has at most one 128-bit approximation from above with an error below one in its last place |
| `PowerTables.ApproxIsTight` | src/main/cpp/luau/tools/numprint.py:25-36 | The approximation of 10^n is that one, and exact while n is not negative and 5^n fits 128 bits, if and only if the quotient taken for a negative n is no power of two; for all other n always |
| `PowerTableRanges.IrregularIffClose` | src/main/cpp/luau/tools/numprint.py:15-36 | For 10^-m it fails if and only if some 2^b lies above 5^m by less than 5^m / 2^(128 + 3m - b) |
| `PowerTableRanges.NoneNear` | src/main/cpp/luau/tools/numprint.py:31-36 | Between two neighbouring fractions around log2 5, no power of five up to their joint denominators is that near to a power of two |
| `PowerTableRanges.NeighboursFit` | src/main/cpp/luau/tools/numprint.py:31-36 | 339/146 and 476/205 are such neighbours for 128 bits |
| `PowerTableRanges.TableRangeIsRegular` | src/main/cpp/luau/tools/numprint.py:25-36 | So the approximation of 10^n is right for every n from -350 on |
| `PowerTableRanges.RowWorksInRange` | src/main/cpp/luau/tools/numprint.py:61-79 | There the assertions of a row hold if and only if its base has 128 bits, its entries are on the right side, and no error reaches an upper half |
| `CompactPowerTables.Pow5` | src/main/cpp/luau/tools/numprint.py:38-43 | The value of both branches |
| `CompactPowerTables.Pow5IsExact` | src/main/cpp/luau/tools/numprint.py:38-43 | While 5^i fits 64 bits, the entry is exact and has its leading one at bit 63 |
| `CompactPowerTables.ExactBounds` | src/main/cpp/luau/tools/numprint.py:62-66 | The product taken for an entry is less than one away from the exact one |
| `CompactPowerTables.OffsetFits` | src/main/cpp/luau/tools/numprint.py:66-70 | The offset lies in [-4, 3] if and only if the rough and the exact product are on the same side of 2^127, and in [-2, 1] then; they can differ only if the rough one is 2^127 |
| `CompactPowerTables.IrregularEntry` | src/main/cpp/luau/tools/numprint.py:69-70 | An entry whose own approximation fails never passes in a row with a good base |
| `CompactPowerTables.TableRow` | src/main/cpp/luau/tools/numprint.py:61-79 | All assertions of a row hold if and only if its base and entries are regular, every entry is on the right side, and no error reaches an upper half; then the packed word fits 64 bits and reading it back gives every power of the row |
| `CompactPowerTables.RecoverUndoesCode` | src/main/cpp/luau/VM/src/lnumprint.cpp:153-169 | The number printer's way back from a row, with 64-bit words and without a carry, gives the power the entry was made from |
| `CompactPowerTables.Packed` | src/main/cpp/luau/tools/numprint.py:74-75 | Or-ing in a code leaves the codes below it alone and can be read back |
| `CompactPowerTables.WithoutCarry` | src/main/cpp/luau/VM/src/lnumprint.cpp:162-169 | Subtracting the offset from the lower word alone is right wherever the upper words agree |
| `JumpBarriers.Raised` | src/main/cpp/luaujava.cpp:124-144 | A callback's result decodes to status s if and only if s is at least 1 and the result is -100 - s; no normal result decodes to a raise |
| `JumpBarriers.SentinelRange` | src/main/cpp/luaujava.cpp:111-133 | In 32 bits decoding never overflows, and the statuses that can be encoded end at 2147483548 |
| `JumpBarriers.FirstRaise` | src/main/cpp/luaujava.cpp:124-179 | What leaves a barrier's body is the first raise of its own, never one that belongs to a barrier inside it |
| `JumpBarriers.StatusIsFirstRaised` | src/main/cpp/luaujava.cpp:124-179 | The status of a wrapper is the first that an action in it raises by itself, by throwing, by a result of -100 - s, or, with status 2, by a yield that cannot be had; and 0 if none does |
| `JumpBarriers.RefusedYield` | src/main/cpp/luaujava.cpp:164-179 | A wrapper in which an interrupt asks for a yield ends with status 0 if it can be had, and with 2 if not |
| `JumpBarriers.Machine.Enter` | src/main/cpp/luaujava.cpp:39-44 | The new barrier is the jump target and remembers the old one |
| `JumpBarriers.Machine.Leave` | src/main/cpp/luaujava.cpp:46-50 | The old jump target is back, and the status can be read |
| `JumpBarriers.Machine.RunActions` | src/main/cpp/luau/VM/src/ldo.cpp:49-75 | For every nesting of raises, callbacks and protected calls the jump target is as it was, a raise is on its way to the innermost open barrier with its status, and no host frame has been skipped |
| `JumpBarriers.Machine.RunAction` | src/main/cpp/luaujava.cpp:124-179 | The same for one raise, one callback through the trampoline, one interrupt, one protected call |
| `JumpBarriers.Machine.RunWrapper` | src/main/cpp/luaujava.cpp:190-199 | Whatever happens inside, control comes back to the host with the outer barrier in place, and the status is that raised to this very barrier, or 0 |
| `JumpBarriers.Machine.RunCalls` | src/main/cpp/luaujava.cpp:190-199 | A host frame is never left by a jump |
| `JumpBarriers.PromptReadsAreRight` | src/main/cpp/luaujava.cpp:34-55 | One cell for the status suffices: a read right after a wrapper gives that wrapper's status however deep the nesting, as long as every read comes right after a wrapper |
| `JumpBarriers.LateReads` | src/main/cpp/luaujava.cpp:598-615 | Other reads can give a foreign status: the first one of a callback, and one after a call refused for want of a continuation |
| `JumpBarriers.ReadsAreRightIff` | src/main/cpp/luaujava.cpp:34-55 | For every nesting of calls all reads give the status of the wrapper in front of them, and 0 where there is none, if and only if every read that does not come right after a wrapper meets a last status of 0 |
| `JumpBarriers.StatusAfterCall` | src/main/cpp/luaujava.cpp:598-615 | A call leaves the status it should unless it was refused for want of a continuation and the last status was not 0 |
| `HeapSearches.LinksAreReferences` | src/main/cpp/luau/tools/heapgraph.py:88-152 | The references followed, kind by kind, are exactly the strong ones: string keys always, other keys and values by `__mode`, the array part always |
| `HeapSearches.LinksArePlaced` | src/main/cpp/luau/tools/heapgraph.py:88-152 | Each leads to the node the source gives it: values of string keys to one of that name, environments, prototypes and metatables to theirs, upvalues to one for the source of their function, stack slots below the last frame before them, all others to the object's own |
| `HeapSearches.WeakIff` | src/main/cpp/luau/tools/heapgraph.py:93-97 | Keys or values are weak exactly if the value under the first `"__mode"` of the metatable is a string with their letter |
| `HeapSearches.Search.FollowPairs` | src/main/cpp/luau/tools/heapgraph.py:99-111 | The queue and the tree after the pairs of a table |
| `HeapSearches.Search.FollowStack` | src/main/cpp/luau/tools/heapgraph.py:135-144 | The queue and the tree after a stack, each slot below the last frame in front of it |
| `HeapSearches.Search.Visit` | src/main/cpp/luau/tools/heapgraph.py:88-152 | The queue and the tree after all references of an object |
| `HeapSearches.Search.Discover` | src/main/cpp/luau/tools/heapgraph.py:80-152 | A new object is counted once, its references are queued, and everything the search keeps is kept |
| `HeapSearches.Search.Run` | src/main/cpp/luau/tools/heapgraph.py:71-152 | The search ends; it has visited exactly the least set with the roots that is closed under strong references, which is what chains of references from the roots lead to; the tree holds every new one of these once and nothing else, each in a node that a shortest chain of references leads to |
| `HeapSearches.FarEnough` | src/main/cpp/luau/tools/heapgraph.py:75-82 | No chain leads to an object that has not been visited in fewer steps than the next entry of the queue has |
| `HeapSearches.RouteStaysIn` | src/main/cpp/luau/tools/heapgraph.py:71-152 | What a chain of references leads to lies in every closed set with the roots |
| `HeapSearches.TotalsOfNewObjects` | src/main/cpp/luau/tools/heapgraph.py:83-86 | The totals of the tree are the number and the bytes of the new objects visited |
| `ObjectTrees.GrownKeepsNodes` | src/main/cpp/luau/tools/svg.py:12-18 | Getting or creating a child leaves every node and what it holds |
| `ObjectTrees.AddedHolds` | src/main/cpp/luau/tools/heapgraph.py:83-86 | Counting an object changes its node and no other |
| `ObjectTrees.TotalsAreItems` | src/main/cpp/luau/tools/heapgraph.py:83-86 | The totals of a tree are those of its objects |
| `HeapCategories.AnnotateContainedCategories` | src/main/cpp/luau/tools/heapgraph.py:154-165 | The loops note at each node what the recursive description says |
| `HeapCategories.AnnotatedIsNoted` | src/main/cpp/luau/tools/heapgraph.py:154-165 | The categories noted at a node are those of the objects in its subtree, all the way down |
| `HeapCategories.AnnotatedKeepsItems` | src/main/cpp/luau/tools/heapgraph.py:154-165 | No object is lost or moved; categories below the start become 0, others stay |
| `HeapCategories.FilteredTreeForCategory` | src/main/cpp/luau/tools/heapgraph.py:167-202 | The loops filter as the recursive description does |
| `HeapCategories.FilteredCounts` | src/main/cpp/luau/tools/heapgraph.py:167-202 | There is a filtered tree if and only if the category is not empty, and its totals are those of the category's objects, although subtrees are skipped by their noted categories |
| `HeapCategories.FilteredAt` | src/main/cpp/luau/tools/heapgraph.py:167-202 | Node by node the filtered tree counts the objects of the category |
| `HeapCategories.SplitIntoCategories` | src/main/cpp/luau/tools/heapgraph.py:204-216 | The loop over 256 categories puts each filtered tree under the name of its category |
| `HeapCategories.SplitHas` | src/main/cpp/luau/tools/heapgraph.py:204-216 | Each name has the tree of the last category in use with that name |
| `HeapCategories.AnnotatedHolds` | src/main/cpp/luau/tools/heapgraph.py:154-165 | Every node keeps its objects |
| `HeapCategories.SplitNodeCounts` | src/main/cpp/luau/tools/heapgraph.py:154-216 | Below the name of a category, each node counts the objects that were at that node and are reported under the category |
| `HeapCategories.SplitConserves` | src/main/cpp/luau/tools/heapgraph.py:204-216 | The split tree has all objects if and only if every category is below 256 and no two categories in use have one name; then it has all bytes too |
| `HeapReports.SplitHasNewObjects` | src/main/cpp/luau/tools/heapgraph.py:71-226 | Split by category, the tree that the search leaves counts no more than the new objects visited; it counts all of them if and only if all are below category 256 and no two categories in use have one name, and then has their bytes |
| `HeapReports.Report` | src/main/cpp/luau/tools/heapgraph.py:71-226 | From the snapshot to the split tree: the same of the new objects that chains of references from the roots lead to |
| `FlameGraphs.Subtree` | src/main/cpp/luau/tools/svg.py:20-30 | The list grown by index has each node of the tree exactly once, and the children of each in one block further on, so parents come first |
| `FlameGraphs.SortByWidth` | src/main/cpp/luau/tools/svg.py:44 | The order of siblings: widest first, equal widths in their old order, each sibling once |
| `FlameGraphs.OrderGivesLeft` | src/main/cpp/luau/tools/svg.py:42-46 | Laying siblings out in that order puts each right of exactly those that precede it |
| `FlameGraphs.SizeUp` | src/main/cpp/luau/tools/svg.py:36-46 | Going up, every width is the total of its subtree and every offset the distance from the parent |
| `FlameGraphs.MoveOut` | src/main/cpp/luau/tools/svg.py:48-51 | Going down, every offset and depth becomes final |
| `FlameGraphs.Layout` | src/main/cpp/luau/tools/svg.py:35-51 | The two loops place every node as the recursive description does: width the total weight of its subtree, offset its parent's plus the widths of the siblings before it, depth one more than its parent's; the root stays where it is |
| `FlameGraphs.TotalIsWeight` | src/main/cpp/luau/tools/svg.py:36-40 | The total of a subtree is the weight of all its nodes |
| `FlameGraphs.SiblingsInOrder` | src/main/cpp/luau/tools/svg.py:42-46 | The widest child starts where its parent does, and every other where the next wider one ends, the first added first among equals |
| `FlameGraphs.PlacedIsNested` | src/main/cpp/luau/tools/svg.py:35-51 | With weights that are not negative, the children of every node lie inside it and do not overlap |

## Left out

- Subcases: filters, exceptions, `abort-after`, and siblings with equal signatures, which the code treats as one subcase
  entered again; the path hash is taken as injective; reporters and timers.
- Wildcmp: a folding that maps a character to the terminator, which `tolower` does not do.
- Constraint graph: only the code with the flag for primitive constraints on; the older overloads and the dump functions.
  The mutable types reachable from a target and the root of a bound chain are given (Constraint.cpp and Type.cpp supply
  them); types and packs are two kinds of vertex, and the reachable types are one sequence, types before packs.
- GraphSteps.StillWaitingIffStale: by `GraphSteps.Resolved`, `follow` goes along `bound` and nothing else; that of the
  source also walks `TableType::boundTo` and lazy types, which `bound` does not hold.
- ConstraintGraphs.ConstraintGraph.CopyDependenciesToReachableTypes: edge lists are looked up again where the source keeps
  a pointer to one; the lists themselves are never replaced, so the two are the same list.
- Type cloner: types and packs share one memo and one kind of node, which has a tag, the children the cloner visits, and a
  scope; the tag stands for the variant and for all else that is copied with it. The scope replacement of the fragment cloner, and bounds marked to
  do in the source, are left out. `follow` is given as a map from bound nodes to their roots.
- TypeCloners.TypeCloner.Clone: after the limit has been exceeded the half-finished clones stay in the memo; nothing is
  stated about them beyond that every later clone fails.
- Delta debugging: processes, progress output and options. The oracle is a function of the flags; a round of concurrent
  jobs is a choice of which job ends next.
- AutocompleteProps.Completion.Complete: where a type is met again while it is marked, the names collected are bounded from
  above only; which of them are collected depends on the order of visits. The details of an entry other than its type
  (deprecation, parentheses, the type-match checks) are left out; references are followed and nested unions flattened
  beforehand.
- JSON encoder: numbers are carried as their digits, so `snprintf`, NaN and the infinities are left out; so are node kinds
  without a `visit` override. Kinds of nodes differ only in the names of their fields.
- Json.ReadPrinted: the reader is for sections 4, 5, 6 and 7 of RFC 8259 without white space between tokens, which the
  encoder never writes; a number is any run of number characters.
- PowerTables.High128: `math.log2` is read as exact, so its rounding on long numbers is not modelled.
- CompactPowerTables.TableRow: a failed assertion is a result without a row; the printed text and the table without
  compression are left out. The 192-bit product of the number printer is taken as exact.
- Jump barriers: `setjmp` and `longjmp` are a result on the way to a target; the virtual machine is any tree of raises,
  callbacks, interrupts and protected calls, with the results of callbacks given. Threads, coroutines that yield across
  barriers, the panic handler, and functions that are not wrapped because they never raise are left out.
- Heap graph: nodes of the tree are told apart by their paths of names, so that the tree is a value and its counters are
  updated by path; reading the snapshot and its statistics; snapshots that do not list an object that is looked up
  on the way, on which the source stops with an error; stack names that are too few, likewise.
- HeapReports.Report: statistics without a name for a category in use, on which the source stops with an error.
- HeapCategories.AnnotateContainedCategories: the categories of objects are rewritten in a new tree, not in place.
- Flame graphs: the names of nodes, the drawing of the picture and its script. Child nodes and weights do not change while
  a layout is made. The widths are integers.
- Everything else: the JNI functions, the virtual machine and the compiler, option parsing, benchmarks, fuzzing, plots.
