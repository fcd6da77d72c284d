# reCAPTHCA puzzle state graph, in Dafny

reCAPTHCA is a business card that is also a sliding-tile puzzle. The card is
a grid of `horTiles × verTiles` tiles, one of which is the hole. It shows a
scrambled arrangement. The player moves the hole one cell north, east,
south or west, and the card can show a hint (the direction that gets closer
to the solved arrangement) or a whole route to it.

Behind the card sits a lazily explored graph of puzzle States:

- Every arrangement that has been demanded gets exactly one `State`. The
  States are registered in `_canonicalStates` and get ids in creation
  order. A new State is back-linked, in both directions, to every
  neighbour arrangement that already has a State. A neighbour that lies
  past the grid's edge is the State itself.
- Every State keeps an upper bound on its solve distance: the number of
  moves to the solved arrangement, or +∞. The bound is refined by a
  dataflow analysis. A worklist of dirty States is relaxed one State at a
  time. The solved State proposes 0, and any other State proposes one
  more than the least distance among its known successors. A State whose
  distance drops dirties its known successors.
- The hint and the route read the distances once the worklist is empty.

The model has six modules:

- `Arrangement` (arrangement.dfy) holds the pure part:
  - the permutation codec `loc2tile`/`tile2loc`;
  - the solved test;
  - the hole's location and position;
  - the neighbour arrangement in each direction.
- `Distance` (distance.dfy) holds numbers extended with +∞.
- `InsertionSet` (insertion_set.dfy) holds JavaScript `Set`s, as
  duplicate-free sequences in insertion order, and `pickAndRemoveFrom`.
- `Graph` (graph.dfy) keeps the arena of State records as values, and
  states and proves their invariants:
  - registry deduplication;
  - exact, symmetric links and boundary self-loops;
  - known successors are exactly the link targets;
  - distances are justified;
  - every State outside the worklist is settled.
- `StateGraphs` (state_graph.dfy) writes each operation that changes the
  graph as a function of the graph:
  - State creation and back-linking;
  - following a direction;
  - a dataflow step and the analysis to closure;
  - the scramble;
  - a move.
  It also proves that each of them keeps the invariant, and states what
  the hint and the route promise.
- `Puzzle` (business_card.dfy) holds the `BusinessCard` class:
  - Its fields are the graph (the States, the registry and the worklist),
    the current and previous State, and the cached route.
  - Its methods are the source's own methods, imperative where the source
    is.
  - Each method is proved to compute the `StateGraphs` function that
    describes it, and to keep the card's invariant.

Two behaviours of the code that one might not expect; the model follows
the code:

- The constructor runs the analysis once, after all the scramble moves
  (reCAPTHCA.ts:400-405, 447). It does not run it after each move.
- `route()` steps to the first known successor of least distance without
  asking that it be closer. It stops only at the solved State, or when
  there is no known successor (reCAPTHCA.ts:590-599).
  - The model proves that, after the analysis, the second stop can never
    happen.
  - It also proves that every step lowers the distance by exactly one, so
    the walk ends at the solved State and no walk through known successors
    is shorter.

## Model

| member | source | states |
|---|---|---|
| Arrangement.Opposite | reCAPTHCA.ts:94-96 | The back link goes in another direction than the link, and one step in it undoes one step in the link's direction (south for north, west for east, and so on). `RoundTrip` shows that it undoes every move that is not at an edge. |
| Arrangement.OppositeOpposite | reCAPTHCA.ts:94-128 | The back link of a back link is in the original direction. |
| Arrangement.MakeGrid | reCAPTHCA.ts:350-356 | The hole tile's index is the location of column `holeHor`, row `holeVer`, and it lies on the board. |
| Arrangement.Identity | reCAPTHCA.ts:393-397 | The generated arrangement is a permutation with tile `i` at location `i`. |
| Arrangement.Inverse | reCAPTHCA.ts:81-82 | `tile2loc[loc2tile[loc]] == loc` for every location, and `loc2tile[tile2loc[t]] == t` for every tile. |
| Arrangement.InverseIsPermutation | reCAPTHCA.ts:81-82 | `tile2loc` is again a permutation. |
| Arrangement.Invert | reCAPTHCA.ts:81-82 | The `forEach` loop that fills `tile2loc` computes exactly `Inverse`. |
| Arrangement.FindMismatch | reCAPTHCA.ts:83 | `findIndex` gives -1 exactly when every location from `from` on holds its own tile; otherwise it gives the first one that does not. |
| Arrangement.IsSolved | reCAPTHCA.ts:83 | `isSolved` holds exactly when the arrangement is the identity. |
| Arrangement.HoleLoc | reCAPTHCA.ts:223-225 | The hole's location lies on the board and holds the hole tile. |
| Arrangement.PosOf | reCAPTHCA.ts:227-232 | On the board, the column and the clamped row are inside the grid, and row × `horTiles` + column gives back the location. |
| Arrangement.TileIndexAtPos | reCAPTHCA.ts:215-221 | The tile shown at a cell of the grid is a tile of the board. |
| Arrangement.HoleAtHolePos | reCAPTHCA.ts:219-232 | The tile shown at `holePos` is the hole tile. |
| Arrangement.PosOfCell | reCAPTHCA.ts:219-232 | Every cell's location lies on the board, and `holePos`'s arithmetic maps it back to the same cell. |
| Arrangement.SwapLoc | reCAPTHCA.ts:157-166 | The location swapped with the hole, if any, lies on the board and is not the hole's own location. |
| Arrangement.SwapLocGeometry | reCAPTHCA.ts:157-166 | There is no swap exactly when the cell next to the hole in direction `d` is off the grid. Otherwise the swapped location is that cell. |
| Arrangement.Swap | reCAPTHCA.ts:151-156 | The tiles at the two locations are exchanged, and every other location keeps its tile. |
| Arrangement.SwapIsPermutation | reCAPTHCA.ts:151-156 | The swapped arrangement is still a permutation. |
| Arrangement.Successor | reCAPTHCA.ts:146-167 | The neighbour arrangement is an arrangement, and it equals the original exactly at a grid edge. Otherwise the hole has moved to the swapped cell, the tile from there sits at the old hole location, and nothing else changed. |
| Arrangement.RoundTrip | reCAPTHCA.ts:146-167 | After a move that is not at an edge, the opposite move is not at an edge either, and it restores the original arrangement. |
| Arrangement.Scrambled | reCAPTHCA.ts:400-405 | The arrangement reached by a sequence of moves is an arrangement of the board. |
| Distance.Min | reCAPTHCA.ts:209 | `Math.min` returns one of its arguments, and that one is no larger than either. |
| InsertionSet.DistinctTail | reCAPTHCA.ts:611-616 | Taking the first element off a set leaves a set that no longer contains it. |
| InsertionSet.Add | reCAPTHCA.ts:473-475 | `set.add` gives exactly the old elements plus `x`, keeps the set duplicate-free, and keeps the old elements first and in order. |
| InsertionSet.AddAll | reCAPTHCA.ts:135-137 | Adding each element of `xs` gives exactly the union, keeps the set duplicate-free, and extends the old iteration order. |
| InsertionSet.PickAndRemoveFrom | reCAPTHCA.ts:609-619 | The result is null exactly for the empty set, which is then unchanged. Otherwise the first element is returned and removed, and nothing else is removed. |
| Graph.Node.WithLink | reCAPTHCA.ts:49-75 | Storing a successor sets the link in that direction only, and leaves the other fields as they were. |
| Graph.Node.LinkTo | reCAPTHCA.ts:248-255 | The first of north, east, south, west whose link is `j`. |
| Graph.LookupRegistered | reCAPTHCA.ts:489-493 | Over a registry, `Map.get` finds a State exactly when some State holds the key, and the State it finds holds that key. |
| Graph.Dedup | reCAPTHCA.ts:477-487 | Two States hold the same arrangement only if they are the same State. |
| Graph.SolvedUnique | reCAPTHCA.ts:83 | At most one State is solved. |
| Graph.LinksSymmetric | reCAPTHCA.ts:89-130 | If the link of `i` in direction `d` is another State `j`, then `j`'s opposite link is `i`, and each is a known successor of the other. |
| Graph.SelfLoopAtEdge | reCAPTHCA.ts:91-94 | A State links to itself in direction `d` exactly when the hole lies on that edge of the grid. |
| Graph.SomeKnown | reCAPTHCA.ts:194-199 | `hasSomeSuccessorKnown` holds exactly when the known-successor set is non-empty. |
| Graph.FiniteAfterClosure | reCAPTHCA.ts:457-462 | With an empty worklist, every State has a finite distance. |
| Graph.ClosedStep | reCAPTHCA.ts:590-601 | With an empty worklist, an unsolved State's first least known successor is at exactly one less than its positive distance. |
| Graph.PotentialDrops | reCAPTHCA.ts:133-134 | Lowering a distance lowers the sum of the distances (the analysis's termination measure). |
| Graph.CreateStart | reCAPTHCA.ts:477-483 | A new State appended, registered and dirtied starts the back-linking with the invariant intact. |
| Graph.BackLink | reCAPTHCA.ts:94-96 | If a move leads to another arrangement, the opposite move from there leads back. |
| Graph.ExpectedStable | reCAPTHCA.ts:89-130 | Handling one direction of the new State changes no expected link except its neighbour's back link. |
| Graph.ExpectedElsewhere | reCAPTHCA.ts:89-130 | The same, for every State other than the neighbour found. |
| Graph.Attach | reCAPTHCA.ts:92-96 | Linking in direction `d` sets that link, adds the target to the known set, and changes nothing else. |
| Graph.LinkStepAbsent | reCAPTHCA.ts:90-91 | A direction without a registered neighbour changes nothing and keeps the back-linking invariant. |
| Graph.LinkStepSelf | reCAPTHCA.ts:91-94 | A boundary direction links the new State to itself and keeps the back-linking invariant. |
| Graph.LinkStepOther | reCAPTHCA.ts:91-98 | A registered neighbour is linked both ways, known both ways and dirtied, with the back-linking invariant kept. |
| Graph.CreateFinish | reCAPTHCA.ts:481-487 | After all four directions, the full graph invariant holds again. |
| Graph.Lowered | reCAPTHCA.ts:133-134 | Only the distance of `id` changes. |
| Graph.MinOver | reCAPTHCA.ts:207-210 | The `Math.min` fold is no larger than any known successor's distance, is +∞ for none, and is attained by one of them. |
| Graph.LowerPreserves | reCAPTHCA.ts:132-140 | A justified lower distance, with the known successors dirtied, keeps the graph invariant apart from `id` itself, and the potential drops. |
| Graph.LowerInWorklist | reCAPTHCA.ts:132-140 | Lowering the distance of a State on the worklist keeps the whole invariant. |
| Graph.TakeFirst | reCAPTHCA.ts:465 | Taking the oldest State off the worklist leaves a well-formed worklist, with every State off it except the taken one settled. |
| Graph.RelaxSettles | reCAPTHCA.ts:201-213 | After the relaxation step, the State relaxed is settled: distance 0 if solved, else at most one more than each known successor. |
| Graph.Proposal | reCAPTHCA.ts:201-213 | The proposal is justified: 0 only for the solved State, and a positive value only one more than some known successor's distance. |
| Graph.RelaxKeeps | reCAPTHCA.ts:464-471 | A step that does not lower the distance keeps the invariant, with the State off the worklist. |
| Graph.RelaxLowers | reCAPTHCA.ts:464-471 | A step that lowers the distance keeps the invariant, with its known successors dirtied. |
| Graph.CountdownExtend | reCAPTHCA.ts:600-601 | Appending a known successor at one less distance extends a walk whose distances count down. |
| Graph.CountdownRoute | reCAPTHCA.ts:590 | A countdown walk that ends at distance 0 is a route. |
| Graph.DistanceIsShortest | reCAPTHCA.ts:457-471 | With an empty worklist, a State's distance is at most the length of every walk through known successors to the solved State. |
| Graph.PathStepIsMove | reCAPTHCA.ts:89-130 | Consecutive States of a walk through known successors are one move of the hole apart. |
| StateGraphs.WithNewState | reCAPTHCA.ts:77-87 | The new State holds `arr`, is solved exactly for the identity, has distance +∞ and no known successor, and takes the next id. Nothing older changes. |
| StateGraphs.WithNewStateOk | reCAPTHCA.ts:480-482 | Registering it keeps the records and the registry well formed. |
| StateGraphs.LinkStep | reCAPTHCA.ts:90-99 | One back-linking block keeps the records and the registry well formed, adds no State, and loses no known successor. |
| StateGraphs.LinkDirs | reCAPTHCA.ts:89-130 | The same, for a list of blocks. |
| StateGraphs.LinkAll | reCAPTHCA.ts:89-130 | `_linkExistingSuccessors` keeps the registry, adds no State, and loses nothing. |
| StateGraphs.LinkAllUnfold | reCAPTHCA.ts:89-130 | It is the north, east, south and west blocks in that order. |
| StateGraphs.LinkStepBuilds | reCAPTHCA.ts:90-99 | A block for a direction not yet handled adds it to the handled ones. |
| StateGraphs.LinkDirsBuild | reCAPTHCA.ts:89-130 | Blocks for distinct, unhandled directions handle all of them. |
| StateGraphs.CreatePreserves | reCAPTHCA.ts:477-487 | Creating and back-linking a demanded State keeps the invariant, loses nothing, and leaves the new State dirty. |
| StateGraphs.GetOrCreate | reCAPTHCA.ts:477-487 | Afterwards the arrangement is registered, and no State is lost. |
| StateGraphs.GetOrCreatePreserves | reCAPTHCA.ts:477-487 | The invariant holds and nothing is lost. A registered arrangement leaves the graph unchanged. A new one gets id = old registry size and is dirty. Either way the result holds `arr`. |
| StateGraphs.Follow | reCAPTHCA.ts:49-75 | After a getter, the link in its direction is filled. |
| StateGraphs.FollowPreserves | reCAPTHCA.ts:49-75 | A getter keeps the invariant and loses nothing. It leads to the State of the neighbour arrangement, and it changes nothing when the link was already set. |
| StateGraphs.FollowCreated | reCAPTHCA.ts:49-54 | Where the link was missing, back-linking already stored it, so the getter's own assignment changes nothing. |
| StateGraphs.Lower | reCAPTHCA.ts:132-140 | The distance changes only when strictly lower, and no distance goes up. Only `id` changes. The known successors are dirtied exactly when the distance changed. |
| StateGraphs.AnalysisStep | reCAPTHCA.ts:464-471 | A step only lowers distances and changes the worklist. It leaves the graph as it is exactly when the worklist is empty. |
| StateGraphs.AnalysisStepPreserves | reCAPTHCA.ts:464-471 | A step keeps the graph invariant. |
| StateGraphs.AnalysisStepProgress | reCAPTHCA.ts:457-471 | A step on a non-empty worklist lowers the distance sum, or keeps it and shrinks the worklist. |
| StateGraphs.Closure | reCAPTHCA.ts:457-462 | The analysis terminates with an empty worklist and the invariant. It only lowers distances and changes nothing else. |
| StateGraphs.ClosureSettles | reCAPTHCA.ts:457-462 | Afterwards every State is settled, and only the solved State has distance 0. |
| StateGraphs.ClosureKeeps | reCAPTHCA.ts:457-462 | The analysis keeps every arrangement and every distance 0. |
| StateGraphs.LowerDirtyPreserves | reCAPTHCA.ts:393-397 | Giving the dirty solved State distance 0 keeps the invariant. |
| StateGraphs.Moved | reCAPTHCA.ts:579-582 | After a move and the analysis, the invariant holds with an empty worklist, nothing is lost, no distance went up, and the State moved to holds the neighbour arrangement. |
| StateGraphs.MovedCard | reCAPTHCA.ts:579-582 | The card's steps compute `Moved`, and the card stays valid with the new current and previous States. |
| StateGraphs.MovedCardOk | reCAPTHCA.ts:579-582 | A move keeps the card valid, with the route dropped. |
| StateGraphs.StartedConsistent | reCAPTHCA.ts:390-397 | The started graph holds exactly one State, the solved one at distance 0, and is a valid card. |
| StateGraphs.StartCreated | reCAPTHCA.ts:393-397 | The solved State, created in the empty registry, gets id 0 and is dirty. |
| StateGraphs.Walk | reCAPTHCA.ts:400-405 | The scramble keeps the invariant, loses nothing, and ends at the State of the scrambled arrangement. |
| StateGraphs.WalkStep | reCAPTHCA.ts:403 | One more getter extends the walk by one move. |
| StateGraphs.ScrambledCard | reCAPTHCA.ts:398-447 | After the scramble and the analysis, the card is valid with an empty worklist, and the current State holds the scrambled arrangement. |
| StateGraphs.ScrambledCardIs | reCAPTHCA.ts:398-447 | The walk followed by the analysis is `ScrambledCard`. |
| StateGraphs.NewCard | reCAPTHCA.ts:390-447 | The card a constructor builds, the started graph scrambled and analysed, is valid and settled, and its current State holds the arrangement the moves lead to from the solved one. |
| StateGraphs.NewCardIs | reCAPTHCA.ts:390-447 | Scrambling the started graph from State 0 gives `NewCard`. |
| StateGraphs.ClosureCardOk | reCAPTHCA.ts:587 | The analysis keeps a card valid and settles it, and State 0 stays solved. |
| StateGraphs.CardSolved | reCAPTHCA.ts:393-398 | In a valid card, State 0 is the solved State. |
| StateGraphs.RoutedCardOk | reCAPTHCA.ts:603 | A route found after the analysis may be cached. |
| StateGraphs.RouteStart | reCAPTHCA.ts:588-589 | After the analysis every State has a finite distance, and the solved State has distance 0. |
| StateGraphs.RouteStep | reCAPTHCA.ts:590-599 | After the analysis, a State other than the solved one is at a positive distance and has known successors, so the `break` is never taken. |
| StateGraphs.RouteNext | reCAPTHCA.ts:591-601 | The first least known successor is exactly one move closer. |
| StateGraphs.RouteAdvance | reCAPTHCA.ts:590-602 | One round of the route loop extends the countdown walk and lowers the distance. |
| StateGraphs.RouteShortest | reCAPTHCA.ts:585-606 | A route is no longer than any walk through known successors to the solved State. |
| StateGraphs.MinMaxLinked | reCAPTHCA.ts:244-257 | The `minMaxSuccessor` is linked in some direction. |
| StateGraphs.HintChosen | reCAPTHCA.ts:244-257 | Stay for the State itself, and otherwise the first direction linking to the `minMaxSuccessor`, meets `HintOk`. |
| StateGraphs.HintAfterClosure | reCAPTHCA.ts:234-257 | After the analysis, the hint says stay exactly on the solved State. Otherwise it points at a State exactly one move closer. |
| Puzzle.BusinessCard.constructor | reCAPTHCA.ts:350-451 | The graph and current State are exactly `NewCard`: the started graph, scrambled along the moves and then analysed. The card is valid, with an empty worklist and no route, and the current and previous States hold the scrambled arrangement. |
| Puzzle.BusinessCard.Scramble | reCAPTHCA.ts:398-447 | The scramble loop, then previous = current, then the analysis, compute `ScrambledCard`. |
| Puzzle.BusinessCard.ScrambleMoves | reCAPTHCA.ts:400-405 | The loop computes `Walk`. |
| Puzzle.BusinessCard.RunAnalysis | reCAPTHCA.ts:447 | The analysis computes `Closure` and changes no other field. |
| Puzzle.BusinessCard.ScrambleStep | reCAPTHCA.ts:403 | One round moves the current State along its link in direction `d`. |
| Puzzle.BusinessCard.CreateSolvedState | reCAPTHCA.ts:393-398 | The graph is exactly `Started`: the solved State alone, with id 0 and distance 0. It becomes the current State, and the card is valid. |
| Puzzle.BusinessCard.CreateSolved | reCAPTHCA.ts:393-397 | `_getOrCreateState` of the identity in the empty registry yields id 0. |
| Puzzle.BusinessCard.DirtySolveDistance | reCAPTHCA.ts:473-475 | Only the worklist changes, by `set.add`. |
| Puzzle.BusinessCard.NewState | reCAPTHCA.ts:77-87 | The appended State has its inverse and solved flag computed, no links and distance +∞, and it is dirty. |
| Puzzle.BusinessCard.GetStateIfExists | reCAPTHCA.ts:489-493 | Returns a State exactly when some State holds `arr`, and that one. Nothing changes. |
| Puzzle.BusinessCard.LinkDirection | reCAPTHCA.ts:90-99 | One block computes `LinkStep`. |
| Puzzle.BusinessCard.LinkExistingSuccessors | reCAPTHCA.ts:89-130 | The four blocks compute `LinkAll`. |
| Puzzle.BusinessCard.GetOrCreateState | reCAPTHCA.ts:477-487 | Computes `GetOrCreate` and returns the registered id. The route is dropped exactly when a State was created. |
| Puzzle.BusinessCard.PotentialMaximalSolveDistance | reCAPTHCA.ts:132-140 | The method and its dirtying loop compute `Lower`, and leave the route alone. |
| Puzzle.BusinessCard.RelaxState | reCAPTHCA.ts:201-213 | The step and its `Math.min` loop compute `Lower` with `Proposal`. |
| Puzzle.BusinessCard.PerformSolveDistanceDataflowStep | reCAPTHCA.ts:464-471 | Computes `AnalysisStep`, and reports closure exactly for an empty worklist. |
| Puzzle.BusinessCard.PerformSolveDistanceDataflowAnalysis | reCAPTHCA.ts:457-462 | The loop terminates and computes `Closure`. |
| Puzzle.BusinessCard.SuccessorInDirection | reCAPTHCA.ts:36-75 | Computes `Follow` and returns the State the link now holds. The route is kept when the link was already set. |
| Puzzle.BusinessCard.SetLink | reCAPTHCA.ts:49-54 | Only the link of `id` in direction `d` is set. |
| Puzzle.BusinessCard.SetCurrentState | reCAPTHCA.ts:301-304 | The current State changes and the cached route is dropped. Nothing else changes. |
| Puzzle.BusinessCard.Move | reCAPTHCA.ts:579-582 | Computes `Moved`. The State moved to is the link's target and holds the neighbour arrangement, and the State moved from becomes previous. The route is dropped and the card stays valid. |
| Puzzle.BusinessCard.Route | reCAPTHCA.ts:585-606 | Returns and caches a route from the current State to the solved one that is as short as any walk through known successors. Without a cached route the new graph is the analysis of the old one; a cached route is returned unchanged, with the graph as it was. |
| Puzzle.BusinessCard.Settle | reCAPTHCA.ts:587 | The analysis that `route()` forces computes `Closure` of the old graph, and leaves the card valid and settled. |
| Puzzle.BusinessCard.MinMaxSuccessor | reCAPTHCA.ts:234-242 | Returns the State itself exactly when no known successor is strictly closer. Otherwise it returns the first known successor of least distance, strictly closer. |
| Puzzle.BusinessCard.MinMaxHint | reCAPTHCA.ts:244-257 | The hint meets `HintOk`. |
| Puzzle.RouteWalk | reCAPTHCA.ts:588-602 | The route loop yields a route from `from` to the solved State whose distances count down by one per move. |
| Puzzle.BestSuccessor | reCAPTHCA.ts:591-596 | None exactly for no known successors. Otherwise the first known successor of least distance. |

## Left out

- Canvas and graphics are not modelled, since they have no algorithmic content. This covers tile slicing and the painter (reCAPTHCA.ts:358-388), hint arrows (409-445) and `draw` (495-542).
- `click`'s geometry (544-578) is not modelled: it turns a point into a direction in floating point. `Move` takes the direction directly. The `done`/`doneLink` navigation is a browser side effect and is also left out.
- `Math.random` in the scramble (400-405) is replaced by a caller-supplied sequence of directions, `moves`.
- `transitionProgress`, `showHints`, `tileSize`, `borderSize` and their accessors are animation and view state, and are left out.
- `knownSuccessors()`, `successors()`, `hasAllSuccessorsKnown()`, `states()`, the `id` getter and `tileIndexAtLoc` are not modelled separately:
  - `route()` reads the known successors directly;
  - `tileIndexAtLoc` is part of `TileIndexAtPos`;
  - the others are not used by the core.
- `potentialSolveDistance` (142-144) is only an alias. Its calls are modelled as calls to `PotentialMaximalSolveDistance`.
- JavaScript numbers are modelled as unbounded naturals and +∞ as `Inf`. No overflow or floating-point rounding is modelled.
- A State object is modelled as its id in the arena of records. Object identity (`===`) is id equality.
- The registry key `loc2tile.join(",")` is modelled as the sequence itself, because joining is injective on integer sequences.
- Generators and iterables are modelled as sequences.
- A board without tiles, or with the hole off the board, is not modelled: `MakeGrid` and the constructor require at least one row and column and the hole on the board. The source does not check this.
- The solved State is id 0, since it is created first. The model compares with id 0 where the source compares with `_solvedState`.
- Puzzle.BusinessCard.MinMaxHint: requires the graph invariant. The source's final `else` answers west without looking at the west link, which is right only when every known successor is linked in some direction.
- Puzzle.BusinessCard.RelaxState: requires that the known successors are exactly the link targets, which is what `hasSomeSuccessorKnown` relies on to say whether the known set is empty.
- Puzzle.BusinessCard.PerformSolveDistanceDataflowAnalysis: requires the graph invariant, which the termination argument needs.
- Puzzle.BusinessCard.SuccessorInDirection: requires well-formed records and registry.
- Puzzle.BusinessCard.GetOrCreateState: requires well-formed records and registry.
- Puzzle.RouteWalk: walks a value snapshot of the graph. The source's loop does not change the graph, so nothing is lost. Its `break` (597-599) is proved unreachable after the analysis rather than modelled as a return of a partial route.
- test.ts is not part of this model. It sets up a canvas and an animation loop.
