# Verified models of engine algorithms

Dafny models of ten components of the engine that do not depend on rendering, scripting or
sockets, and proofs of what those components are for. `dafny verify dfyconfig.toml` checks all of it.

| component | files | what is proved |
|---|---|---|
| crafting | Matching, HopcroftKarp, Multisets, Names, Items, Shapeless, Shaped, CraftDefs, CraftHash, CraftIndex | the matcher decides perfect matchings, both grid checks decide their correspondences, the hash index finds what registration order says; with the exact conditions for shaped recipes and for fuels |
| emerge queue | Positions, EmergeQueue, EmergeThreads | the queue invariants, no lost wake-up, and exactly which callbacks are always called, in every run |
| pathfinder | PathMoves, PathHills, PathLength, Pathfinder | sound and complete for every queue order; a path without shortcuts whose costs add up, and when it is cut off |
| bulk noise | Flat, NoiseValue, NoiseWalk, NoiseMap2D, NoiseMap3D, NoiseBuffers, NoiseFit, NoiseMap, NoiseSteps | exactly when the incremental lattice walk equals the pointwise formula, and exactly which maps stay inside their buffers |
| plural forms | Numerals, PluralForm, PluralParser, PluralSyntax, PluralHeader, PluralLanguage | exactly which texts are read as which tree; formulas of C evaluate as in C unless C skips a division by zero, and no other text does better than a formula with odd operands |
| inventory | Stacks, SlotSums, InventoryList, MoveAction, MoveRuns, JsonStrings, ItemStrings, InventoryLines, Inventory, InventoryText, InventorySync | conservation in every run of moves, up to endless ends, agreement of questions and updates, incremental synchronisation from the lists to the text and back |
| map residency | MapSectors, MapResidency, MapSweep | both caches agree with lookups, unloading takes only and all of what it should, and exactly which unsaved blocks are lost |
| block ids | NodeIds | names survive renumbering and correction |
| node timers | NodeTimers | a sorted list, an index and a cached minimum behave as one map, in every run of ordinary commands, and exactly when others spoil the minimum |
| path names | PathNames | a scan from the right is a stack from the left |

Code that works on objects and arrays is modelled by classes and loops with contracts; what is promised
is stated on functions of their contents, and lemmas about those functions carry the main results.

Where code and documentation part, the code is followed:

- Fuel recipes all get one priority, because their constructor looks at the recipe name before it is set
  (`src/craftdef.cpp:927`). `CraftIndex.FuelOrder` says exactly when the index then still agrees with a scan.
- The shaped check compares bounding boxes, which is exact as long as the hand, which blank cells stand for,
  cannot fill a whole edge of the recipe (`src/craftdef.cpp:384-387`). The hand of the builtin game is in a group
  (`builtin/game/register.lua:447-451`), so a recipe for which it can does exist: `Shaped.BuiltinHand`.
  `Shaped.CheckIsExact` says for which recipes the check misses an input, `CraftHash.ProbingIsExact` for which the
  index looks in the wrong place.
- `&&` and `||` in plural forms evaluate both sides, so a division by zero on the right is met although C
  would not evaluate it (`src/gettext_plural_form.cpp:65-70`). `PluralHeader.AndEvaluatesBoth` gives such a form,
  `PluralHeader.FormulaParses` says exactly when evaluation agrees with C.
- Operands of plural forms may be missing or signed: `()` is 0 and `-1` the largest number
  (`src/gettext_plural_form.cpp:149-151`). `PluralLanguage.LanguageIsExact` says exactly which texts are read to a form
  without missing parts.
- The pathfinder measures its first estimate from the destination to itself (`src/pathfinder.cpp:1123`).
- Rescaling a noise map is skipped for offsets and scales near, not only at, 0 and 1
  (`src/noise.cpp:674`). `NoiseMap.FinishIsExact` says when that changes nothing.
- A lacunarity below 1 sizes the lattice buffer for less than the first octave needs, and a map in space of a
  single plane gets one plane of lattice points (`src/noise.cpp:440-470`), as a blob ore of cluster size 1 asks for
  (`src/mapgen/mg_ore.cpp:367-396`). `NoiseFit.PlaneFitsExactly` and `NoiseFit.VolumeFitsExactly` say which maps stay
  inside their buffers.
- The guard against too many item lines wraps around for a list of size 0 and lets a slot be written behind its end
  (`src/inventory.cpp:517`, `src/inventory.cpp:525`). `InventoryLines.OverrunsIfEmpty` says exactly when.
- `addList` refuses names with blanks, but not names with line breaks, which the text of an inventory cannot carry
  either (`src/inventory.cpp:971-973`): `InventoryText.NameReads`.
- A path that is too long is cut off at its beginning, and `getPath` does not look at the answer
  (`src/pathfinder.cpp:732`). `PathSearch.Pathfinder.BuildPath` says exactly when, by the back pointers;
  `PathSearch.Pathfinder.GetPath` when it must and when it cannot happen, by the ends and the ground; `PathSearch.CutPath`
  gives an area and two ends.
- The time -1 stands for no trigger time, but timers that have run longer than their timeout can be due then
  (`src/nodetimer.h:79-86`). `NodeTimers.NodeTimerList.Set` says exactly when the next trigger time is spoiled,
  `NodeTimers.StepIsExact` when a step misses due timers, and `NodeTimers.MissedTimer` gives such calls.
- Callbacks of a block over the map limit are never called once a thread has taken it (`src/emerge.cpp:691-692`):
  `EmergeThreads.SkippedUnanswered` is a run, `EmergeThreads.AnsweredIfWithin` says that only they can be lost.
- Without a limit on loaded blocks, a block that cannot be saved does not keep its sector from being deleted with it
  (`src/map.cpp:311-312`, `src/map.cpp:330-333`). `MapSweep.SweepAll` says exactly which blocks are lost.
- Octaves that step by more than a lattice cell are accepted with a lacunarity below 1, but the walk enters only one
  cell a step (`src/noise.cpp:533-538`). `NoiseSteps.PlaneStepsExactly` says that exactly then cells are not noise.
- An endless source is reset to its stack, but not if it was swapped with an endless destination, and a swap with an
  endless end duplicates or loses stacks (`src/inventorymanager.cpp:481-512`): `MoveAction.SwapTotals`.

## Model

| member | source | states |
|---|---|---|
| HopcroftKarp.CanMatchAll | src/craftdef.cpp:489-587 | true exactly when the bipartite graph has a perfect matching; the pairing left is one; on false the very nodes that the last search reached violate Hall's condition; every round matches more nodes, so there are at most as many as left nodes |
| HopcroftKarp.Matcher.Bfs | src/craftdef.cpp:506-537 | the search leaves a layering in which every reached matched node has a parent one layer below; found exactly when the dummy is layered; otherwise nothing unreached is next to what was reached |
| HopcroftKarp.Matcher.Dfs | src/craftdef.cpp:542-563 | on success the edges along an augmenting path are swapped and the matched set grows by the start; on failure the pairing is untouched and only hopeless nodes were given up; each recursive call is one layer further |
| HopcroftKarp.SwapEdge | src/craftdef.cpp:553-557 | taking over a right node after its partner was rerouted keeps the pairing mutually inverse and adds exactly the start to the matched nodes |
| HopcroftKarp.DeadSpreads | src/craftdef.cpp:546-562 | if every free node was given up, so was every layered node, up to the dummy |
| HopcroftKarp.SomeAttemptSucceeds | src/craftdef.cpp:575-584 | a round after a successful search cannot fail for every free node |
| HopcroftKarp.Round | src/craftdef.cpp:575-584 | one round matches at least one more node and unmatches none |
| HopcroftKarp.ReachedViolatesHall | src/craftdef.cpp:506-537 | when the dummy cannot be reached, the reached left nodes have fewer neighbours than members |
| HopcroftKarp.Reach | src/craftdef.cpp:525-532 | reaching one more node keeps the search invariant |
| Matching.ViolatorRefutesMatching | src/craftdef.cpp:483-489 | a Hall violator rules out every perfect matching |
| Shapeless.ShapelessCheck | src/craftdef.cpp:589-664 | true exactly when filled stacks and recipe slots correspond one to one, each item satisfying its slot |
| Shapeless.PrefilterDecides | src/craftdef.cpp:620-638 | the sorted set difference never changes the answer: the whole corresponds exactly when the rest does and all exact slots are met |
| Shapeless.PrefilterComplete | src/craftdef.cpp:628-638 | a correspondence leaves one between the remaining items and the group slots |
| Shapeless.PrefilterSound | src/craftdef.cpp:628-638 | a correspondence of the rest extends to all |
| Shapeless.BuildGraph | src/craftdef.cpp:649-660 | the graph has an edge exactly where an item satisfies a group slot |
| Names.SetDifferenceContents | src/craftdef.cpp:628-634 | the merge of sorted names is the difference of the multisets |
| Items.InputItemMatchesRecipe | src/craftdef.cpp:68-96 | walking the comma-separated list decides membership in all groups, or equality of names |
| Items.AliasesAreFollowed | src/itemdef.cpp:380-404 | an alias is known as what it stands for, and in the same groups |
| Shaped.ShapedCheck | src/craftdef.cpp:346-410 | true exactly when some translation of the recipe grid onto the input grid makes every cell match, blanks included, and brings box onto box; and exactly when any translation does, unless the hand can stand in for an edge of the recipe |
| Shaped.CraftGetBounds | src/craftdef.cpp:144-175 | the smallest rectangle around the filled cells, or that there are none |
| Shaped.CoversAlignsBoxes | src/craftdef.cpp:384-387 | a covering translation aligns the bounding boxes, or leaves an edge of the recipe to the hand |
| Shaped.CoversFromBox | src/craftdef.cpp:389-407 | matching inside the aligned boxes is matching everywhere |
| Shaped.CheckIsExact | src/craftdef.cpp:384-407 | comparing boxes decides the existence of a covering translation on every input exactly for the recipes whose edges the hand cannot stand in for |
| Shaped.BuiltinHand | builtin/game/register.lua:447-451 | with the hand of the builtin game, a recipe and an input that it covers and the check misses |
| Shaped.BoxesMatch | src/craftdef.cpp:389-407 | the double loop decides whether all cells of the box fit |
| Shaped.Pad | src/craftdef.cpp:356-357 | padding completes the last row and changes no cell |
| CraftDefs.Check | src/craftdef.cpp:346-962 | each kind of recipe answers true exactly when it matches by its own definition, shaped ones box onto box; which is any match unless the hand can stand in for an edge |
| CraftDefs.PriorityOrder | src/craftdef.h:128-135 | a repair gives way to any recipe, any other to shaped ones, and those that ask for groups to those of the same shape that do not |
| CraftDefs.RepairAddsUses | src/craftdef.cpp:723-749 | a repair succeeds exactly for two single tools of a kind that can be repaired and have more uses left than it costs; the result has the uses of both less the cost, but no more than a new one |
| CraftDefs.TwoStacks | src/craftdef.cpp:761-772 | the loop finds the first two stacks that are not empty, and whether there are more |
| CraftDefs.GetOutput | src/craftdef.cpp:412-966 | names the item that a matching recipe makes, for a repair the repaired tool, and that is known exactly if the recipe's output is |
| CraftHash.MatchIsProbed | src/craftdef.cpp:41-66 | whatever the hash function, a recipe that leaves no slot to the hand and matches an input is filed under the very hash that is probed for it |
| CraftHash.ProbingIsExact | src/craftdef.cpp:41-66 | matching inputs probe the hash a recipe is filed under, all of them, exactly if the hand cannot stand in for one of its slots |
| CraftHash.TranslationBijects | src/craftdef.cpp:428-450 | a translation carries the cells of a name one to one onto cells of that name, so counts agree |
| CraftHash.SameGridHash | src/craftdef.cpp:41-66 | grids that agree on what is not empty have the same hash of either kind |
| CraftHash.LinesTellNames | src/craftdef.cpp:43-53 | the text that is hashed tells the names, if none has a line break |
| CraftIndex.ScanPicks | src/craftdef.cpp:1065-1091 | scanning from back to front yields the latest usable recipe of the highest priority |
| CraftIndex.LatestIsLatest | src/craftdef.cpp:1065-1068 | what the scan keeps of a priority is usable, and no later recipe of that priority is |
| CraftIndex.BucketFinds | src/craftdef.cpp:1052-1068 | what passes in the probed bucket is what passes in the whole layer and is filed under the hash of the input |
| CraftIndex.ThreeLayers | src/craftdef.cpp:1047-1092 | probing three layers with a running best equals one scan over what is found in all of them |
| CraftIndex.FoundScan | src/craftdef.cpp:1047-1092 | if the hand cannot fill a slot, what is found is scanned as if it were all that is registered |
| CraftIndex.LayersKeepOrder | src/craftdef.cpp:1047-1092 | for the grid and the furnace the layers pick what registration order picks |
| CraftIndex.ScanIsBest | src/craftdef.cpp:1065-1091 | the scan finds the latest registered usable recipe of the highest priority, by its position, or that none is usable |
| CraftIndex.RegisterAndLookUp | src/craftdef.cpp:1036-1098 | registering, hashing and looking up finds the best of what passes under the probed hashes, whatever the hash function; if the hand cannot fill a slot that is the best of all, for fuels exactly unless a usable group fuel was registered after every usable exact one |
| CraftIndex.SparedSlotIsMissed | src/craftdef.cpp:41-66 | a recipe with a slot that the hand can fill is missed by every layer on some input for which a scan finds it |
| CraftIndex.FuelOrder | src/craftdef.cpp:921-931 | for fuels the layers pick what the scan picks exactly when no usable group fuel was registered after every usable exact one |
| CraftIndex.FuelCounterexample | src/craftdef.cpp:921-931 | two fuels for which lookup and scan differ |
| CraftIndex.CraftManager.RegisterCraft | src/craftdef.cpp:1194-1204 | a registered recipe waits behind the earlier ones |
| CraftIndex.CraftManager.InitHashes | src/craftdef.cpp:1218-1233 | what waited is filed under its hash, in order, and nothing waits any more |
| CraftIndex.CraftManager.GetCraftResult | src/craftdef.cpp:1036-1098 | the result is that of a scan over what passes of the waiting and, under the probed hashes, of the filed recipes, in layer order; over all of them if the hand cannot fill a slot; nothing for an empty input |
| CraftIndex.CraftManager.Probe | src/craftdef.cpp:1059-1091 | walking one bucket continues the scan of what passes with the best so far |
| EmergeQueue.EmergeManager.PushBlockEmergeData | src/emerge.cpp:352-396 | a request is admitted exactly within the limits or when forced; flags and callbacks merge into an existing entry |
| EmergeQueue.EntryMerges | src/emerge.cpp:379-393 | an entry allows generation exactly if one of the requests that joined it did, is forced likewise, belongs to the first peer, and has all callbacks in order |
| EmergeQueue.EmergeManager.PopBlockEmergeData | src/emerge.cpp:399-419 | an entry leaves the table and its owner's count drops by one; a missing entry or counter changes nothing |
| EmergeQueue.EmergeManager.GetOptimalThread | src/emerge.cpp:422-440 | the first of the shortest queues |
| EmergeQueue.EmergeManager.EnqueueBlockEmergeEx | src/emerge.cpp:274-301 | a new position joins exactly one queue, an old one none; the protocol invariant is kept |
| EmergeQueue.EmergeManager.PopBlockEmerge | src/emerge.cpp:514-527 | a thread takes the front of its queue together with its table entry |
| EmergeQueue.EmergeManager.RunCompletionCallbacks | src/emerge.cpp:497-511 | every callback of a block is called once, in order, with the position and the action |
| EmergeQueue.EmergeManager.CancelPendingItems | src/emerge.cpp:479-494 | draining a queue removes exactly its entries and calls each of their callbacks once with the cancelled action |
| EmergeQueue.EnqueuedKeepsGood | src/emerge.cpp:352-396 | every table entry stays queued exactly once, counters count the table, and unforced requests respect the total and per-peer limits |
| EmergeQueue.PoppedKeepsGood | src/emerge.cpp:399-419 | taking a front keeps that invariant |
| EmergeQueue.QueuedIsRegistered | src/emerge.cpp:514-527 | what is queued is in the table and its owner is counted, so popping cannot fail |
| EmergeThreads.StepConserves | src/emerge.cpp:657-750 | every atomic step keeps each accepted callback pending, in flight, delivered or skipped with its block |
| EmergeThreads.StepWakes | src/emerge.cpp:232-301 | a thread that sleeps on a non-empty queue, or has not seen yet that it is asked to stop, is signalled or about to be |
| EmergeThreads.StepLicensed | src/emerge.cpp:657-750 | no step calls back that a block was generated, or failed while it was, unless an accepted request for this block allowed it |
| EmergeThreads.StepKeepsInv | src/emerge.cpp:657-750 | every atomic step keeps the whole invariant |
| EmergeThreads.RunKeepsInv | src/emerge.cpp:657-750 | the invariant, with all of this, holds after every run of any number of threads |
| EmergeThreads.AtRest | src/emerge.cpp:657-750 | with queues empty and nobody at work, table and counters are empty and every accepted callback was called exactly once, or skipped with a block over the map limit |
| EmergeThreads.SkippedUnanswered | src/emerge.cpp:684-692 | for every block over the map limit, a run that ends at rest with its callback accepted and never called |
| EmergeThreads.AnsweredIfWithin | src/emerge.cpp:657-750 | over all runs that end at rest, every accepted callback of a block was called exactly if the block lies within the map |
| Positions.WithinLimit | src/mapblock.h:569-578 | a block is within the map exactly if its corner node is within the limit of map generation |
| PathMoves.CalcCost | src/pathfinder.cpp:813-945 | the cost answered is that of the one legal move in the direction, and invalid exactly when there is none |
| PathMoves.CalcDrop | src/pathfinder.cpp:857-891 | the walk down finds the only surface one may drop to |
| PathMoves.CalcJump | src/pathfinder.cpp:893-943 | the walk up finds the only top one may jump to |
| PathMoves.MoveUnique | src/pathfinder.cpp:813-945 | no two legal moves go the same way |
| PathMoves.ClosedHoldsPath | src/pathfinder.cpp:1093-1187 | a set closed under legal moves holds every path from inside |
| PathHills.EdgesAreMoves | src/pathfinder.cpp:1110-1115 | connections are exactly the legal moves to the four sides, on any map |
| PathHills.HillsSearchable | src/pathfinder.cpp:502-534 | on hills one stands exactly on top of the ground, below and before the upper limits |
| PathHills.HillsEdges | src/pathfinder.cpp:813-945 | on hills of any shape a step goes to one of the four sides, on the level for 1, and for 2 down by at most the drop or up by at most the jump, and every such step is legal |
| PathHills.LevelReachable | src/pathfinder.cpp:1093-1187 | on level ground every place to stand on is reached from every other |
| PathSearch.Pathfinder.UpdateCostHeuristic | src/pathfinder.cpp:1093-1187 | for every order in which the queue may yield nodes, found exactly when the end is reachable by legal moves through valid nodes in range; every node hangs under the first expanded one that leads to it |
| PathSearch.Pathfinder.Settle | src/pathfinder.cpp:1126-1184 | one iteration keeps the search tree; each position is queued at most once |
| PathSearch.Pathfinder.VisitNeighbor | src/pathfinder.cpp:1154-1183 | whatever a legal move in one direction leads to has been queued, and only that |
| PathSearch.Pathfinder.Open | src/pathfinder.cpp:1172-1182 | a node is opened only if it was never queued, and hangs under the current one by a legal move |
| PathSearch.Pathfinder.CostToward | src/pathfinder.cpp:1157-1162 | the cached cost is the cost |
| PathSearch.Pathfinder.InitNode | src/pathfinder.cpp:502-548 | a fresh node is valid exactly on a surface, and prefetched costs are right |
| PathSearch.Pathfinder.BuildPath | src/pathfinder.cpp:1190-1218 | the walk back is that along the back pointers, by legal moves of strictly decreasing cost; it gets to the source, the costs adding up, exactly if that takes no more than 699 nodes, and else has the last 699 of them |
| PathSearch.Pathfinder.GetPath | src/pathfinder.cpp:684-788 | from marking the ends to reversing the walk: a path is returned exactly when the destination can be reached; it is a path of legal moves to the destination that meets no node twice and takes no shortcut, of at most 699 nodes; it starts at the source unless there is a path without shortcuts of more, never if the ends are 699 nodes apart, always if there are no more nodes to step on |
| PathSearch.WalkIsDirect | src/pathfinder.cpp:1170-1182 | whatever the order of expansion, only the next node of a walk back leads to the one before |
| PathSearch.CutPath | src/pathfinder.cpp:1195-1199 | along a corridor of 701 nodes the path returned does not start at the source |
| PathLength.PathSpans | src/pathfinder.cpp:1099-1104 | a path has more nodes than its ends are apart, seen from above |
| PathLength.PathFits | src/pathfinder.cpp:1190-1218 | a path that meets no node twice has no more nodes than there are to step on |
| PathSearch.CostsAddUp | src/pathfinder.cpp:1190-1218 | the costs along the walk sum to the difference of the totals |
| PathSearch.WalkIsPath | src/pathfinder.cpp:1190-1218 | read from its end, a walk is a path of legal moves |
| PathSearch.NothingMissed | src/pathfinder.cpp:1126-1187 | with the queue empty, what was not expanded cannot be reached |
| PathSearch.TreeExpands | src/pathfinder.cpp:1140-1145 | closing a node keeps the search tree |
| NoiseValue.NoiseFractal2D | src/noise.cpp:311-334 | the octave loop computes the fractal sum |
| NoiseValue.NoiseFractal3D | src/noise.cpp:337-361 | the octave loop computes the fractal sum |
| NoiseValue.FlaggedIs | src/noise.cpp:325-326 | with the flag a value of the same size that is not negative, without it the value itself |
| NoiseValue.StepsScale | src/noise.cpp:646-672 | moving whole units before spread and frequency apply equals taking steps after |
| NoiseMap2D.ValueMap | src/noise.cpp:493-550 | the incremental lattice walk yields at each cell the interpolation at the walk's place, for steps of any length, every index inside the buffer |
| NoiseMap2D.WalkedIsNoise | src/noise.cpp:493-550 | that is the value noise at the cell's own point where the walk is at the points of the cell |
| NoiseWalk.WalkIsExact | src/noise.cpp:533-548 | the walk is at its points from wherever it starts exactly if it takes no step or none longer than a lattice cell |
| NoiseWalk.WalkCovers | src/noise.cpp:533-548 | cell and fraction together cover the distance |
| NoiseWalk.WalkBound | src/noise.cpp:510-512 | the walk stays one short of the last lattice point, however long its steps |
| NoiseMap2D.FillLattice | src/noise.cpp:513-516 | the buffer holds the lattice row by row |
| NoiseMap2D.CellIs | src/noise.cpp:530-531 | interpolating with the corners at hand is interpolating at the walk's place |
| NoiseMap3D.ValueMap | src/noise.cpp:555-642 | the same in space |
| NoiseMap3D.PlaneValues | src/noise.cpp:593-634 | one plane of it, starting over in y |
| NoiseMap3D.CellIs | src/noise.cpp:608-612 | interpolating with the corners at hand is interpolating at the walk's place |
| NoiseMap3D.WalkedIsNoise | src/noise.cpp:555-642 | the value noise at the cell's own point where the walk is at the points of the cell |
| Flat.Flat2At | src/noise.cpp:492-492 | the cell (x, y) of a plane is at y * width + x |
| Flat.Flat3At | src/noise.cpp:554-554 | the cell (x, y, z) of a volume is at its row-major index |
| NoiseBuffers.PointsProvided | src/noise.cpp:466-470 | every accepted axis gets at least three points |
| NoiseBuffers.ResizeNoiseBuf | src/noise.cpp:438-478 | the size of the lattice buffer, or an exception exactly if along some axis there are more than 10^9 lattice points or the spread is below 1 at the largest factor |
| NoiseMap.Create | src/noise.cpp:364-413 | a noise map with buffers for at least one cell each way, or none exactly for refused parameters |
| NoiseFit.PlaneFitsExactly | src/noise.cpp:438-478 | a plane map stays inside its buffer, every octave and wherever it starts, exactly when the buffer holds the worst case of its highest octave |
| NoiseFit.VolumeFitsExactly | src/noise.cpp:438-478 | the same in space |
| NoiseFit.GrowingMaps | src/noise.cpp:438-478 | with lacunarity of at least 1 every accepted map does, in space if it has more than one plane, and steps by at most one lattice cell |
| NoiseFit.SinglePlaneOverruns | src/noise.cpp:466-470 | a map in space of a single plane never does: some start needs more than its buffer |
| NoiseFit.ShrinkingOverruns | src/noise.cpp:440-443 | an accepted map of 10 by 10 cells with lacunarity 1/2 that can need 144 lattice points and has 64 |
| NoiseFit.SingleCellOverruns | src/noise.cpp:466-470 | an accepted map of a single cell in space that can need 27 lattice points and has 16 |
| NoiseFit.StepsFitExactly | src/noise.cpp:456-464 | every octave has a spread of at least 1 exactly when the one with the highest frequency has |
| NoiseFit.ShrinkingSteps | src/noise.cpp:456-464 | an accepted map whose first octave has a spread of 1/2 |
| NoiseMap.Noise.Map2D | src/noise.cpp:646-680 | wherever its octaves stay in the buffer, each cell is the sum of what their walks yield, finished; with no steps longer than a lattice cell the sum of the octaves at its point, and the fractal formula there when finishing is exact |
| NoiseMap.WalkSumIs2 | src/noise.cpp:656-672 | what the walks add up to for a cell are the octaves of its own point where each walk is at its points |
| NoiseSteps.PlaneStepsExactly | src/noise.cpp:493-550 | all octaves are noise at every place, whatever the lattice noise, exactly if neither axis steps by more than a lattice cell or takes a step |
| NoiseSteps.VolumeStepsExactly | src/noise.cpp:555-642 | the same in space |
| NoiseSteps.NegativeLacunarity | src/noise.cpp:438-464 | with negative lacunarity only negative spreads are accepted, and the first octave walks backwards from a lattice whose reach is negative |
| NoiseMap.Noise.Map3D | src/noise.cpp:683-718 | the same in space |
| NoiseMap.Noise.UpdateResults | src/noise.cpp:721-747 | each cell grows by the octave's weighted value |
| NoiseMap.AddOctave2 | src/noise.cpp:663-672 | adding one octave's values cell by cell gives the next sums |
| NoiseMap.AddOctave3 | src/noise.cpp:701-710 | the same in space |
| NoiseMap.FinishIsExact | src/noise.cpp:674-677 | skipping the rescaling is harmless for all sums exactly when offset or scale are more than 0.00001 away from 0 and 1, or at them |
| PluralParser.ParseLeftToRight | src/gettext_plural_form.cpp:125-140 | the loop over operators computes the left-associative parse |
| PluralParser.Reduce | src/gettext_plural_form.cpp:97-123 | the first operator that reads anything decides, and reading makes progress |
| PluralParser.Parse | src/gettext_plural_form.cpp:142-235 | the mutual recursion terminates and never leaves more than it was given |
| PluralSyntax.ParsesBack | src/gettext_plural_form.cpp:142-235 | at every level, a formula that fits what follows, which does not continue it, is read back as its tree, the rest untouched; its operands may be signed, too large or missing |
| PluralSyntax.ParsesChain | src/gettext_plural_form.cpp:125-140 | left-associative chains associate to the left |
| PluralSyntax.ParsesQuestion | src/gettext_plural_form.cpp:218-230 | ?: associates to the right |
| PluralSyntax.ReduceFinds | src/gettext_plural_form.cpp:97-123 | the operator at the front is the one found; < is not taken for <= |
| PluralSyntax.ReadsNumber | src/gettext_plural_form.cpp:149-151 | exactly the digits are read |
| PluralSyntax.ReadsSigned | src/gettext_plural_form.cpp:149-151 | digits with a sign give the number, or what adds up to 2^64 with it, or the largest one if it is too large |
| PluralHeader.FormulaParses | src/gettext_plural_form.cpp:237-245 | every formula in C notation, with any blanks and parentheses, is read completely; for every n it evaluates to its value in C exactly unless an operand that C skips divides by zero, and never to another value |
| PluralHeader.TreeMeans | src/gettext_plural_form.cpp:19-90 | evaluation is the value in C, or undefined if an operand that C skips divides by zero |
| PluralHeader.ComparisonsByText | src/gettext_plural_form.cpp:194-216 | two numbers with a comparison or a logical operator between them yield 1 or 0 as in C |
| PluralHeader.ArithmeticByText | src/gettext_plural_form.cpp:182-192 | two numbers with an arithmetic operator between them yield the sum, difference or product modulo 2^64, or quotient or remainder, undefined for a divisor 0 |
| PluralHeader.AndEvaluatesBoth | src/gettext_plural_form.cpp:65-70 | n&&1%n is 0 for 0 in C, and a division by zero here |
| PluralHeader.TextIsUnambiguous | src/gettext_plural_form.cpp:237-245 | a text spells one tree only |
| PluralHeader.PrintParses | src/gettext_plural_form.cpp:237-245 | every complete tree is the parse of its print |
| PluralHeader.HeaderParses | src/gettext_plural_form.cpp:247-256 | a header line gives its number of plurals and the tree of its formula, and nothing for 0 plurals |
| PluralHeader.MissingPartIsZero | src/gettext_plural_form.cpp:218-230 | the text of a conditional that ends behind its colon is accepted, and its form yields 0 for every number |
| PluralLanguage.LanguageIsExact | src/gettext_plural_form.cpp:142-245 | a text is read to a form without missing parts exactly if it is a formula, up to operands that are signed, too large or missing |
| PluralLanguage.Spelled | src/gettext_plural_form.cpp:142-235 | at every level, what a parser makes such a form of is a formula that spells it, fits what follows, and has its precedence and associativity |
| PluralLanguage.AcceptedMeans | src/gettext_plural_form.cpp:237-245 | every accepted text yields 0 for every number because a part is missing, or evaluates as its formula does in C, odd operands counting as what number parsing makes of them |
| PluralLanguage.PlainIsLegal | src/gettext_plural_form.cpp:237-245 | the formulas of C are exactly those without odd operands |
| PluralLanguage.NumberEnds | src/gettext_plural_form.cpp:149-151 | number parsing stops where what follows does not go on with the number |
| PluralLanguage.MissingIsZero | src/gettext_plural_form.cpp:142-165 | () is accepted and is 0 |
| PluralLanguage.NegativeWraps | src/gettext_plural_form.cpp:149-151 | -1 is accepted and is the largest unsigned long |
| PluralForm.GapYieldsZero | src/gettext_plural_form.cpp:19-90 | a form with a missing part, however deep, yields 0 for every number |
| PluralForm.ComparisonLaws | src/gettext_plural_form.cpp:194-216 | of less, equal and greater exactly one holds; <= and >= are put together from them, != and the rest are opposites |
| PluralForm.SumLaw | src/gettext_plural_form.cpp:188-192 | sum and difference wrap around at 2^64 |
| PluralForm.DifferenceLaw | src/gettext_plural_form.cpp:188-192 | the difference is what is to be added to get the first operand |
| PluralForm.ProductLaw | src/gettext_plural_form.cpp:182-186 | a product is that of the integers but for a multiple of 2^64 |
| PluralForm.QuotientLaw | src/gettext_plural_form.cpp:182-186 | quotient and remainder are the only numbers that make up the dividend, the remainder below the divisor |
| PluralForm.CompleteSize | src/gettext_plural_form.cpp:7-17 | a complete form has the size it was built with |
| PluralForm.EvaluateInRange | src/gettext_plural_form.cpp:40-90 | values stay within unsigned long |
| Stacks.AddItemConserves | src/inventory.cpp:302-337 | adding makes and loses nothing of any kind, stays within 16 bits, lets no stack outgrow the maximum of its item, and leaves something only if a stack of another kind is there or the maximum was reached |
| Stacks.ItemFitsPredicts | src/inventory.cpp:339-376 | the question answers what the update would leave over |
| Stacks.TakeItemConserves | src/inventory.cpp:385-403 | taking splits a stack without loss, and clears it when it is used up |
| InventoryLists.InventoryList.ChangeItem | src/inventory.cpp:581-592 | the slot is exchanged, out of range nothing, and the list is marked if it changed |
| InventoryLists.InventoryList.AddItem | src/inventory.cpp:601-638 | nothing is left exactly when there is room; the leftover is exact, and there is one only if no slot is empty and every stack of the kind has reached its maximum; no stack outgrows it; matching stacks fill up first and then the first empty slot; every total is conserved |
| InventoryLists.InventoryList.FillStacks | src/inventory.cpp:611-621 | the first loop fills matching stacks from the front |
| InventoryLists.InventoryList.RoomForItem | src/inventory.cpp:664-675 | true exactly if a slot is empty or the stacks of the kind can take as many before they reach their maximum |
| InventoryLists.InventoryList.ContainsItem | src/inventory.cpp:677-694 | true exactly when the matching total covers the count, that is when RemoveItem returns it in full |
| InventoryLists.InventoryList.RemoveItem | src/inventory.cpp:696-714 | returns the lesser of the count and the matching total, lowers the matching total by exactly that, and takes from the back |
| SlotSums.MatchingIsTotal | src/inventory.cpp:677-720 | what matches with metadata is the total of the kind, without them the total of the name |
| InventoryLists.InventoryList.MoveItem | src/inventory.cpp:750-792 | whether or not the lists are the same: the two slots become what a partial move, a full move or a swap makes of them, all else stays, every total is conserved, no count overflows |
| InventoryLists.InventoryList.MoveItemSomewhere | src/inventory.cpp:727-748 | every total over the two lists is conserved; the source keeps exactly what the other list had no room for |
| InventoryLists.MoveConserves | src/inventory.cpp:750-792 | a move keeps every total over its two slots within 16 bits, and swaps exactly when nothing fits and swapping is wanted |
| InventoryLists.MovedTotal | src/inventory.cpp:750-792 | from slots to lists: the totals of one or two lists are kept |
| InventoryLists.SlotGrowth | src/inventory.cpp:742-747 | putting a leftover back on its slot cannot overflow, even if the list took part of it itself |
| MoveRuns.Run | src/inventory.cpp:727-792 | every run of moves, moves to anywhere and player moves between any lists, with any indices and counts, keeps every count within 16 bits, and the total of every kind over all lists unless an end is endless |
| MoveRuns.Execute | src/inventory.cpp:727-792 | a single command does to its two lists what the operation promises, nothing to the others, and keeps the total of every kind unless an end is endless |
| MoveAction.Apply | src/inventorymanager.cpp:325-512 | whatever the callbacks answer, a player's move follows its plan: nothing, as many items as fit and are granted, or a swap when nothing fits and both directions are granted; endless ends are then restored; totals are kept up to what is carried out of an endless source or into an endless destination; allow_swap equals did_swap |
| MoveAction.Decide | src/inventorymanager.cpp:351-443 | the count and the kind of move decided from what fits and what the callbacks grant |
| MoveAction.AskCallbacks | src/inventorymanager.cpp:385-428 | a swap stays on exactly if both rounds of questions grant both stacks, -1 granting any; a refused swap moves nothing |
| MoveAction.PlanIsFollowed | src/inventorymanager.cpp:468-479 | moveItem carries out the plan, and swaps exactly when a swap was allowed |
| MoveAction.PlanObeys | src/inventorymanager.cpp:323-441 | in plain numbers: what is moved is no more than either answer grants and all that fits or what one of them grants, for an answer below -1 all that fits of the whole stack; stacks are swapped exactly if nothing fits and everything is granted both ways |
| MoveAction.EndlessPlans | src/inventorymanager.cpp:481-512 | an end is taken for endless exactly if the answer about it is -1 |
| MoveAction.CarryTotals | src/inventorymanager.cpp:481-512 | carrying makes just the items that leave an endless source and loses just those that enter an endless destination |
| MoveAction.SwapTotals | src/inventorymanager.cpp:481-512 | which stacks a swap with endless ends makes and loses; with an endless destination the source ends up empty, even an endless one |
| InventoryLines.ReadsList | src/inventory.cpp:464-540 | a list is read back as it was, whatever was there before |
| InventoryLines.OverrunsIfEmpty | src/inventory.cpp:515-528 | a slot is written behind the end of the list exactly when the list has none and one is described before it ends |
| InventoryLines.OverrunsExactly | src/inventory.cpp:881-952 | whatever lists it is read into, a text has it happen exactly if outside of other lists, before its end and before anything refused, it announces a list of size 0 and describes a slot of it |
| InventoryLines.EmptyListOverruns | src/inventory.cpp:515-528 | such a text |
| InventoryLines.IncrementalSync | src/inventory.cpp:866-952 | an incremental text leaves a replica that knows all unmodified lists with the very same lists |
| InventoryLines.FullSync | src/inventory.cpp:866-952 | a full text does so whatever the replica knew |
| InventoryLines.StepKeepsSync | src/inventory.h:357-377 | marked changes and sendings keep the replica in step |
| InventoryLines.EverySendingSyncs | src/inventory.cpp:866-952 | through every run of marked changes and sendings, each sending leaves both sides with the same lists |
| InventoryLines.TrackedIsMarked | src/inventory.h:291-292 | operations that mark what they change are changes the protocol can follow |
| InventorySync.Run | src/inventory.cpp:866-952 | through every run of edits of a server's inventory and updates of a client's, each edit does what it says, the client can follow, and after an update both hold the same lists |
| InventorySync.Perform | src/inventory.cpp:581-748 | every edit does to its lists what it says, leaves the others alone, and marks what it changes |
| InventorySync.Update | src/inventory.cpp:866-952 | writing, reading in place and marking as handled leaves both sides with the same lists |
| InventoryText.TextSync | src/inventory.cpp:464-540 | the same by way of the text: what the other side reads from it are the very same lists |
| InventoryText.TextReads | src/inventory.cpp:464-540 | a text is read as the lines it was written from |
| InventoryText.NameReads | src/inventory.cpp:933-935 | a list name survives its line exactly if it has neither blanks nor line breaks |
| ItemStrings.RoundTrip | src/inventory.cpp:45-237 | a stack is read back from its item string exactly if its name is no alias and it is not several of a tool |
| ItemStrings.ItemReads | src/inventory.cpp:68-237 | what is read is the stack with its name resolved, and one item of a tool |
| ItemStrings.NothingReads | src/inventory.cpp:217-221 | no stack is an empty text, which is read as no stack unless the empty name is an alias |
| ItemStrings.ReadIsProper | src/inventory.cpp:68-221 | whatever is read has a name exactly if it has a count, and is at most one of a tool; text right behind the name is an error |
| ItemStrings.SignedNumbers | src/inventory.cpp:200-209 | counts and wear may be signed, and wrap around at 16 bits |
| ItemStrings.PairsRead | src/itemstackmetadata.cpp:52-87 | metadata are read back, in whatever order they were written |
| ItemStrings.MetaLayout | src/itemstackmetadata.cpp:12-64 | the characters that separate metadata, and that without the first of them the text is one value |
| JsonStrings.WordReads | src/util/serialize.cpp:314-342 | a string of any bytes is read back from its quoted form, up to the blank behind it |
| JsonStrings.QuotedIfNeeded | src/util/serialize.cpp:314-322 | a string is left as it is exactly if all its characters are printable and none is a blank or a quote |
| JsonStrings.HexDigits | src/util/hex.h:32-43 | hexadecimal digits are read in either case, anything else as 0 |
| JsonStrings.EscapedReads | src/util/serialize.cpp:173-220 | the closing quote is found behind what was escaped, and unescaping gives the string |
| JsonStrings.UnescapeInPlace | src/util/serialize.cpp:222-280 | decoding in place is decoding |
| Inventories.ReadListInto | src/inventory.cpp:486-540 | the line loop fills the list as specified, reports an error, or stops at a write behind its end |
| Inventories.Inventory.Serialize | src/inventory.cpp:866-879 | the lines written are the specified text of the lists and their flags |
| Inventories.Inventory.DeSerialize | src/inventory.cpp:881-952 | reading in place gives the specified lists: created, refilled, kept or removed |
| Inventories.Inventory.AddList | src/inventory.cpp:954-978 | a list of that name is resized and cleared, else a new one is added unless the name has a blank |
| Inventories.ResetIsMarked | src/inventory.cpp:954-978 | adding a list marks what it changes |
| Inventories.Inventory.DeleteList | src/inventory.cpp:988-1000 | the list of that name goes, all others stay |
| MapSectors.MapSector.GetBlockBuffered | src/mapsector.cpp:31-48 | the cached lookup is the plain lookup |
| MapSectors.MapSector.CreateBlankBlock | src/mapsector.cpp:55-75 | a new block at its height, unless over the limit; the cache stays right |
| MapSectors.MapSector.InsertBlock | src/mapsector.cpp:77-91 | inserts unless there is a block already; the cache stays right |
| MapSectors.MapSector.DetachBlock | src/mapsector.cpp:99-117 | the block leaves as an orphan and no cache points at it |
| MapResidency.Map.GetSectorNoGenerate | src/map.cpp:58-77 | the cached sector is the plain lookup |
| MapResidency.Map.GetBlockNoCreateNoEx | src/map.cpp:84-92 | through both caches, the plain lookup |
| MapResidency.Map.DeleteSectors | src/map.cpp:425-436 | the sectors go, and with them a cached one |
| MapResidency.Map.DeleteBlock | src/mapsector.cpp:93-117 | exactly one block stops being loaded |
| MapResidency.Map.TimerUpdate | src/map.cpp:258-401 | bounded branch: only unreferenced blocks without unsaved changes leave, each because more than the limit are left when its turn comes or it is over the timeout, so none if neither is the case; what stays keeps within the limit plus locked plus failed; exactly their positions are reported and no lookup finds them |
| MapResidency.Map.Handle | src/map.cpp:357-384 | one block is passed over, unloaded, or kept because saving failed |
| MapResidency.Map.Drain | src/map.cpp:354-385 | blocks are taken in the order of their timers, each one over the timeout or while more than the limit are left; the loop ends within the limit and with no block over the timeout left in the queue |
| MapResidency.Map.NotFound | src/map.cpp:377-381 | blocks that are gone are not found |
| MapSweep.SweepAll | src/map.cpp:292-334 | without a limit: exactly the unreferenced blocks over the timeout that need no saving or were saved are reported; loaded stay all others but those that could not be saved in a column where every block is over the timeout and unreferenced, which go with their sector, unsaved and unreported |
| MapSweep.SweepSector | src/map.cpp:296-333 | every block of a sector ages and is looked at once, and the sector is to be deleted exactly if all of them are over the timeout and unreferenced |
| MapSweep.LostBlock | src/map.cpp:311-312 | a map on which a block with changes is dropped without being saved |
| NodeIds.IdIdMapping.Clear | src/mapblock.cpp:61-66 | whatever was assigned is unassigned again |
| NodeIds.GetBlockNodeIdMapping | src/mapblock.cpp:261-286 | ids are renumbered 0, 1, ... one to one, with the names of all of them |
| NodeIds.CorrectBlockNodeIds | src/mapblock.cpp:291-343 | every node with a name gets the id of that name, allocated if need be; definitions only grow; ids are missing only when none is left |
| NodeIds.CorrectId | src/mapblock.cpp:306-330 | the cache answers what the name would |
| NodeIds.NamesSurvive | src/mapblock.cpp:261-343 | saving under one table and loading under another keeps the name of every node whose name got an id |
| NodeIds.SaveAndLoad | src/mapblock.cpp:261-343 | saving a block and loading it with other definitions, or the same, keeps every name unless no id is left for it; ids that both sides give to the same names come back; one id cache serves both |
| NodeIds.SameTableIsIdentity | src/mapblock.cpp:261-343 | under the same injective table registered nodes come back as they were |
| NodeIds.GrownNoAliases | src/mapblock.cpp:319-326 | allocation adds no alias |
| NodeTimers.NodeTimerList.Get | src/nodetimer.h:52-59 | the timer with what it had run when it was set and the time since, which reaches its timeout exactly when it is due |
| NodeTimers.NodeTimerList.Remove | src/nodetimer.h:61-77 | removes from a simple map, keeping list and index in step, and the next trigger time right if it was |
| NodeTimers.NodeTimerList.Insert | src/nodetimer.h:79-86 | adds to a simple map, keeping list and index in step; the next trigger time stays right exactly unless the earliest one was the time that stands for none and stays the earliest |
| NodeTimers.NodeTimerList.Set | src/nodetimer.h:88-91 | replaces in a simple map; the next trigger time stays right exactly unless the earliest of the other timers is due at the time that stands for none and stays the earliest |
| NodeTimers.NodeTimerList.Step | src/nodetimer.cpp:113-135 | in any state, nothing before the time it goes by, and then exactly the due timers, once each, in trigger order, each with the time it has run, after which the next trigger time is right |
| NodeTimers.StepIsExact | src/nodetimer.cpp:113-135 | due timers are passed over exactly if the next trigger time stands for none or is yet to come; never if it is right and does not stand for none |
| NodeTimers.OrdinaryIsAsMap | src/nodetimer.h:79-98 | setting timers that have not run longer than their timeout, removing, clearing and letting time go on do what they would to a plain map, and keep it so |
| NodeTimers.PerformAll | src/nodetimer.cpp:113-135 | any commands in a row keep list and index in step; ordinary ones miss no timer and end with the right next trigger time |
| NodeTimers.MissedTimer | src/nodetimer.cpp:113-135 | two timers set so that a step fires none although one is due |
| NodeTimers.InsertedPunctual | src/nodetimer.h:84-85 | the cached minimum is updated rightly exactly unless the waiting one is the time that stands for none and stays the earliest |
| PathNames.RemoveRelativePathComponents | src/filesys.cpp:775-826 | the result has the components a left-to-right stack leaves, is empty when that underflows, and keeps the leading delimiter |
| PathNames.ScanIsResolve | src/filesys.cpp:792-801 | counting .. from the right is a stack from the left |
| PathNames.ResolvesUnlessUnderflow | src/filesys.cpp:818-819 | the stack works exactly when no prefix has more .. than names |
| PathNames.ScanRemoves | src/filesys.cpp:803-815 | cutting a name out of the string keeps all other components apart |
| PathNames.ComponentsJoin | src/filesys.cpp:781-788 | components of two parts that do not meet within a name are joined |

## Left out

- CraftIndex.RegisterAndLookUp: for the best of all it assumes, as the index does, that an item string and the item name in it agree on being a group, and that stacks have a name exactly when their count is not 0. With a recipe that has a slot which the hand can fill, it says what is found, which by CraftIndex.SparedSlotIsMissed is not the best of all for some input.
- CraftIndex.CraftManager.GetCraftResult: what crafting consumes and replaces is not modelled, nor are recipe removal and the index by output.
- EmergeQueue.EmergeManager.EnqueueBlockEmergeEx: counters are unbounded naturals; allocation failure and exceptions are not modelled.
- EmergeThreads.AtRest: cancelling drains one entry per step although the mutex is held throughout. How a block is loaded or generated is any action, but that it was generated or failed only where that is allowed. Starting threads again after they were stopped is not modelled.
- PathSearch.Pathfinder.UpdateCostHeuristic: no optimality is claimed, since opened nodes are never relaxed. Positions are unbounded integers, the container is keyed by real positions, and the queue may yield any element. The array container for small search areas, which initialises its nodes in advance and does not check indices (`src/pathfinder.cpp:551-572`), is not modelled.
- PathSearch.Pathfinder.GetPath: starts where both ends have been moved down to the ground; the mark on path elements, which only the debug output reads, the other search algorithms and the points added for ends that hover are not modelled.
- NoiseMap.Noise.Map2D: over the reals, without a persistence map and without the setters; lattice noise and interpolation are arbitrary functions.
- NoiseMap.Noise.Map3D: as in the plane.
- NoiseFit.PlaneFitsExactly: for positive lacunarity; with a negative one the first octave's lattice has no size (NoiseSteps.NegativeLacunarity), and one of exactly 0, whose quotients are infinite in floating point, counts as not accepted.
- PluralParser.Parse: which texts are read to a form with a missing part, which yields 0 for every number, is not described further. Characters beyond the end of the text, which number parsing could see in the original, are not modelled; wide characters are plain ones.
- InventoryLines.IncrementalSync: empty slots are compared as empty, and list names are distinct. The slot counter and announced sizes are not limited to 32 bits.
- ItemStrings.ItemReads: the legacy item names and formats are not modelled, and numbers that overflow atoi count as wrapped.
- Inventories.Inventory.DeSerialize: where the original would write behind the end of a list of size 0, the model stops; what happens to the memory there is not modelled.
- InventoryLists.InventoryList.SetSize: resize locks are not modelled.
- MoveAction.Apply: for callbacks that change nothing. The loop over destination slots and rollback records are not modelled.
- MapResidency.Map.TimerUpdate: whether saving a block succeeds is a function of its position; metrics are not modelled.
- NodeIds.CorrectBlockNodeIds: which free id the definition manager gives out next is an input.
- NodeTimers.NodeTimerList.Insert: reading and writing timers is not modelled.
- PathNames.RemoveRelativePathComponents: for the delimiter `/` only.
- Legacy formats, logging, profiling, scripting callbacks other than as answers, the network and the file system.
- Collision, whose claims rest on floating-point tolerances.
