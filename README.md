# Cellular automata engine

This project models the cellular-automaton engine of `AutomataEngine/main.js`. The engine has four parts:

- **The neighbourhood walker `forNeighborhood`.** It enumerates the offsets within radius `r` of a centre cell, as a square or a diamond. It wraps each coordinate around the edges of the grid with a remainder that is never negative, and calls back for every offset except the centre.
- **The `TileMap`.** It is a `floor(500/s) × floor(500/s)` array of tiles. A tile is an open attribute bag.
  - `setTile` merges a record into a tile at once.
  - `changeTile` queues a record, and `applyChanges` replays the queue in order, then empties it.
  - `automataStep` calls an updater for every cell, then applies the queue.
- **The frame loop `run` / `stop`.** On each frame, `run` runs every step of 30 ms that has started since the last frame, draws once, and records the time. The buttons start, pause, step and reset the engine.
- **The three shipped automata.**
  - The Game of Life.
  - The mold: levels that rise at random.
  - The forest: vegetation, fire and petrification.

  Each one has a colour map.

## How it is modelled

A tile is a `map<string, int>`. An attribute that JavaScript reads as `undefined` is a missing key. "Truthy" means the key is present and non-zero.

`Grids` treats the tile array as a value (`seq<seq<Tile>>`). `setTile`'s merge is `SetAt`, and the replay of a queue is `ApplyAll`.

The `TileMap` class keeps the tiles in an `array2` and the queue in a `seq<Change>`. Its methods state their new state in terms of those value functions.

An updater is a pure function from the array as it stands and a cell to an `Effect`. The `Effect` holds the `setTile` writes the call makes and the `changeTile` writes it queues. `Stepping.Step` is the whole step as a function, and `TileMap.AutomataStep` is proved equal to it.

Every `Math.random() < p` of a preset is a parameter:
- `coin` for Life;
- `upgrade` for mold;
- the `Draws` record for forest.

Each step of a run draws its own outcomes. The engine therefore holds the selected automaton as one updater per step, `updaters: nat -> Updater`, with `updaters(k)` being the updater with the outcomes of the engine's k-th step. A counter `stepped` selects the next one. `Stepping.Steps` numbers its steps the same way, so two catch-up steps of one frame, or the steps of two frames, may use different outcomes.

Each preset's updater is also written imperatively on the `TileMap`, for Life and forest. Those methods are proved to perform exactly the effect of the corresponding function.

Clock readings are parameters. `run` reads the clock twice when it restarts its baseline: `reading` is the first reading and `now` the second. The number of catch-up steps follows the code: the loop `i < (now - last) / period` runs ⌈elapsed / period⌉ times, so it rounds up, not down.

## Model

| member | source | states |
|---|---|---|
| Neighborhood.JsRem | AutomataEngine/main.js:45 | JavaScript's `%` for a positive divisor: `a` is the quotient truncated toward zero times `b` plus the result, which lies strictly between -b and b and takes the sign of the dividend |
| Neighborhood.Mod | AutomataEngine/main.js:44-46 | `mod(a, b)` is always in `[0, b)` |
| Neighborhood.ModIsEuclidean | AutomataEngine/main.js:44-46 | `mod(a, b)` equals the mathematical (Euclidean) remainder for every sign of `a` |
| Neighborhood.Wrap | AutomataEngine/main.js:47-52 | each callback's wrapped coordinates lie in `[0, w) × [0, h)` |
| Neighborhood.Walk | AutomataEngine/main.js:43-62 | the walk makes one call per offset of the shape, and every call is inside the grid |
| Neighborhood.WalkWraps | AutomataEngine/main.js:47-49 | the k-th call carries the k-th offset `(i1, j1)`, and its cell is `((ci + i1) mod w, (cj + j1) mod h)` |
| Neighborhood.CornerWrapsAround | AutomataEngine/main.js:44-61 | around corner (0, 0) of a 10 × 10 grid, the first call is offset (-1, -1) and lands on (9, 9) |
| Neighborhood.VisitColumn | AutomataEngine/main.js:54-60 | the inner loop for one `i1` makes exactly the calls of that column of the shape, skipping the centre |
| Neighborhood.ForNeighborhood | AutomataEngine/main.js:43-62 | the nested loops make exactly the calls `Walk` describes, in order |
| Neighborhood.OffsetsMembers | AutomataEngine/main.js:53-61 | an offset is visited exactly when it is in the shape (square `max(abs i1, abs j1) <= r`, diamond `abs i1 + abs j1 <= r`) and is not (0, 0) |
| Neighborhood.ColumnsUpToMembers | AutomataEngine/main.js:53-61 | the offsets of the first columns of the outer loop are exactly the in-shape offsets of those columns, centre excluded |
| Neighborhood.ColumnUpToMembers | AutomataEngine/main.js:55-60 | the offsets of the first rows of the inner loop are exactly those rows of the column, centre excluded |
| Neighborhood.OffsetsAscending | AutomataEngine/main.js:53-61 | visits come with `i1` ascending outside and `j1` ascending inside, so no offset is visited twice |
| Neighborhood.ColumnsUpToAscending | AutomataEngine/main.js:53-61 | the outer loop's visits so far are in order and lie left of the current column |
| Neighborhood.ColumnUpToAscending | AutomataEngine/main.js:55-60 | the inner loop's visits so far are in order, in that column, and above the current row |
| Neighborhood.ColumnUpToLength | AutomataEngine/main.js:55-60 | an inner loop over `n` rows makes `n` calls, one fewer when it passes the centre |
| Neighborhood.ColumnLength | AutomataEngine/main.js:54-60 | a column of half-height `k` gives `2k+1` calls, or `2k` in the centre column |
| Neighborhood.SquareColumnsLength | AutomataEngine/main.js:53-61 | the square's first columns give `(columns) × (2r+1)` calls, minus one once the centre column is passed |
| Neighborhood.DiamondColumnsLength | AutomataEngine/main.js:53-56 | the diamond's first columns give the number of diamond cells in them, minus one once the centre column is passed |
| Neighborhood.OffsetsCount | AutomataEngine/main.js:53-61 | the square of radius r makes (2r+1)² − 1 calls; the diamond makes 2r(r+1) |
| Neighborhood.NoRadiusNoVisits | AutomataEngine/main.js:53 | radius 0 (or less) makes no call |
| Grids.Blank | AutomataEngine/main.js:66-75 | a new array is w × h and every tile is an empty record |
| Grids.SetAt | AutomataEngine/main.js:91-93 | `Object.assign`: the keys of `t` take their values from `t`, every other key of that tile keeps its value, and every other tile is unchanged |
| Grids.ApplyAll | AutomataEngine/main.js:106-108 | replaying a queue keeps the array's shape |
| Grids.ApplyAllCell | AutomataEngine/main.js:106-108 | after the replay, a tile is its old value with only the changes addressed to it merged in, in queue order |
| Grids.ReplayLastWriter | AutomataEngine/main.js:106-108 | per key, the last queued change that names the key wins; a key that no change names keeps its value |
| Grids.ApplyAllLastWriter | AutomataEngine/main.js:106-110 | `applyChanges` on the whole array: the last writer wins per cell and key, and everything else is untouched |
| Grids.ReplayUntouched | AutomataEngine/main.js:106-108 | a tile no change addresses is left as it was |
| Grids.ReplayKeepsKey | AutomataEngine/main.js:91-93 | merging records into a tile never removes an attribute it has |
| Grids.ReplayAppend | AutomataEngine/main.js:106-108 | replaying two queues one after the other equals replaying their concatenation |
| TileMaps.TileMap.constructor | AutomataEngine/main.js:65-76 | the map is `floor(500/s)` × `floor(500/s)`, every tile is empty, and the queue is empty |
| TileMaps.TileMap.Width | AutomataEngine/main.js:78-80 | `width()` is `floor(500/s)`, between 1 and 500 |
| TileMaps.TileMap.Height | AutomataEngine/main.js:82-84 | `height()` is `floor(500/s)`, between 1 and 500 |
| TileMaps.TileMap.GetTile | AutomataEngine/main.js:86-88 | returns the stored tile as a value, and changes nothing |
| TileMaps.TileMap.SetTile | AutomataEngine/main.js:91-93 | the array becomes `SetAt` of the old array; the queue is untouched |
| TileMaps.TileMap.SetTiles | AutomataEngine/main.js:107-108 | `setTile` calls in a row give `ApplyAll` of the old array |
| TileMaps.TileMap.ChangeTile | AutomataEngine/main.js:98-100 | appends `(i, j, t)` to the queue and changes no tile |
| TileMaps.TileMap.ChangeTiles | AutomataEngine/main.js:98-100 | several `changeTile` calls append their records in order and change no tile |
| TileMaps.TileMap.DiscardChanges | AutomataEngine/main.js:102-104 | the queue is empty and no tile changes |
| TileMaps.TileMap.ApplyChanges | AutomataEngine/main.js:106-110 | the array becomes the old queue replayed on the old array in order; then the queue is empty |
| TileMaps.TileMap.AutomataStep | AutomataEngine/main.js:132-138 | the nested loops followed by `applyChanges` compute exactly `Step` of the old array and queue; the queue ends empty |
| Stepping.Call | AutomataEngine/main.js:135 | one updater call keeps the array well formed and its writes in range |
| Stepping.SweepTo | AutomataEngine/main.js:133-135 | the sweep so far keeps the array well formed and the queue in range |
| Stepping.Step | AutomataEngine/main.js:132-138 | a step maps a w × h array to a w × h array |
| Stepping.StepNumber | AutomataEngine/main.js:165-166 | step number k of a run, with that step's updater `us(k)` and an empty queue, keeps the array w × h |
| Stepping.Steps | AutomataEngine/main.js:165-166 | n steps in a row, numbered from `first`, each with its own updater, keep the array w × h |
| Stepping.RunIsSteps | AutomataEngine/main.js:165-166 | a sequence of arrays where each one is the next numbered step applied to the one before ends in `Steps` of its first array |
| Stepping.CellOrderFacts | AutomataEngine/main.js:133-134 | the cells visited before (i, j) are exactly those in earlier columns, or earlier rows of column i, in ascending order |
| Stepping.StepVisitsEveryCellOnce | AutomataEngine/main.js:133-135 | the loops' visiting order `CellOrder` lists each cell of the grid once and no cell twice; `StepCallsEachCellOnce` ties it to the step's calls |
| Stepping.CallAll | AutomataEngine/main.js:133-135 | calling the updater on cells in turn keeps the array w × h and every queued record inside it |
| Stepping.SweepCallsInOrder | AutomataEngine/main.js:133-135 | for any updater, however it writes, the nested loops up to (i, j) are exactly the calls on the cells of `CellOrder`, one after the other, each on the state the previous call left |
| Stepping.CellOrderWithin | AutomataEngine/main.js:133-134 | every cell the loops visit is inside the array |
| Stepping.CallAllAppend | AutomataEngine/main.js:133-135 | one more visited cell is one more updater call, on the state the earlier calls left |
| Stepping.StepCallsEachCellOnce | AutomataEngine/main.js:132-138 | for any updater, a step is the updater called once on every cell, never twice on the same cell, i ascending outside and j inside, followed by the replay of the queue |
| Stepping.SweepSeesStartingArray | AutomataEngine/main.js:132-136 | when the updater writes only through `changeTile`, every call sees the array as it was when the step began, and the queue collects the calls' records in visiting order |
| Stepping.StagedToInOrder | AutomataEngine/main.js:133-135 | the records queued before (i, j) are those of the earlier cells, in visiting order |
| Stepping.StepReplaysQueue | AutomataEngine/main.js:132-138 | with such an updater, a step replays on the old array every call's records in visiting order |
| Stepping.StagedOfLocal | AutomataEngine/main.js:106-108 | when each call queues only for its own cell, a cell receives exactly its own call's records |
| Stepping.StepCell | AutomataEngine/main.js:132-138 | each cell after the step is its own queued records replayed on its old tile |
| Stepping.StepIsSnapshot | AutomataEngine/main.js:130-138 | with an updater that only reads and queues for its own cell, the step computes the next array from the previous one alone (`NextSnapshot`), independently of the visiting order |
| Stepping.StepAppliesOwnRecords | AutomataEngine/main.js:132-138 | with at most one record per cell, for that cell, each new tile is the old tile with that record merged in |
| Stepping.CallGivesKey | AutomataEngine/main.js:135 | when every call gives its own cell an attribute through `setTile`, the call for (i, j) gives it to (i, j) and takes it from no cell that had it |
| Stepping.SweepGivesKey | AutomataEngine/main.js:133-135 | for such an updater, every cell the loops have visited holds the attribute, whatever later calls write |
| Stepping.StepGivesKey | AutomataEngine/main.js:132-138 | for such an updater, one step from any array leaves every tile with the attribute, since merging records never removes one |
| Stepping.OwnWritesWellBehaved | AutomataEngine/main.js:135 | an updater that writes only to the cell it is called for writes inside the array |
| Clock.CatchUpSteps | AutomataEngine/main.js:164-166 | the step count k is the least k >= 0 with k × period >= elapsed: it rounds up, and it is 0 when no time has passed |
| Clock.LoopGuard | AutomataEngine/main.js:165 | pass i of the loop runs exactly when i is below the step count |
| Clock.CatchUpUnique | AutomataEngine/main.js:165-166 | a loop that stops at the first failing guard has run exactly `CatchUpSteps` passes |
| Clock.CatchUpExamples | AutomataEngine/main.js:164-166 | 105 ms gives 4 steps, 90 ms gives 3, 1 ms gives 1, and 0 ms gives none |
| Engine.CatchUp | AutomataEngine/main.js:163-166 | the catch-up loop runs exactly `CatchUpSteps(elapsed)` steps, the k-th of them with the updater of step `first + k`, and its result is `Steps` of the old array |
| Engine.StepWithNext | AutomataEngine/main.js:166 | one `automataStep` with the updater of step k turns the array into `StepNumber` of it, with an empty queue |
| Engine.Engine.constructor | AutomataEngine/main.js:150-151 | tile size 20, a blank tile map, the given updaters with no step taken, no timestamp, nothing drawn |
| Engine.Engine.Run | AutomataEngine/main.js:158-172 | one frame runs exactly `CatchUpSteps(now − baseline)` steps, the baseline being a truthy timestamp as kept or, when it is `undefined` or 0, the fresh reading; each step uses the next step's own updater, and the step counter advances by the number of steps; it draws once, records `now`, and keeps the updaters and tile size |
| Engine.Engine.Stop | AutomataEngine/main.js:175-178 | the timestamp becomes `undefined`, so the next frame starts a fresh baseline |
| Engine.Engine.StartPause | AutomataEngine/main.js:534-542 | while running: stop, with no step and no draw; otherwise run a frame from a fresh baseline, each step with its own updater; the updaters and tile size are unchanged either way |
| Engine.Engine.StepOnce | AutomataEngine/main.js:547-552 | while stopped: exactly one step, with the next step's updater, and one draw; while running: nothing |
| Engine.Engine.Reset | AutomataEngine/main.js:557-560 | the tile map becomes a new blank one of the current tile size |
| Engine.Engine.SetAutomata | AutomataEngine/main.js:181-185 | a new blank tile map, and the given automaton's updaters are selected |
| Engine.Engine.SetTileSize | AutomataEngine/main.js:187-190 | the tile size changes and the new blank map is `floor(500/s)` square |
| Attributes.Color | AutomataEngine/main.js:34-40 | a missing green or blue channel repeats the red one; the colour is a number triple exactly when red is a number |
| Attributes.Around | AutomataEngine/main.js:206 | every neighbour visited on a grid is a cell of that grid |
| Attributes.AroundSized | AutomataEngine/main.js:206 | the walk on a w × h array, with `width()` and `height()` passed in, is the walk on that array |
| Conway.CountAlive | AutomataEngine/main.js:207-209 | the count never exceeds the number of visits |
| Conway.CountAliveIsCardinality | AutomataEngine/main.js:205-210 | the count is the number of visited tiles whose `alive` is truthy |
| Conway.AliveNeighbors | AutomataEngine/main.js:205-210 | a cell has at most 8 live neighbours |
| Conway.LifeRuleIsB3S23 | AutomataEngine/main.js:214-222 | the cell lives on exactly when it has 3 live neighbours, or 2 and was alive; a change is staged exactly when the state flips |
| Conway.LifeRule | AutomataEngine/main.js:214-222 | the rule's staged `alive` value; its contract is `LifeRuleIsB3S23` |
| Conway.LifeNextIsB3S23 | AutomataEngine/main.js:214-225 | on a seeded tile, the new tile keeps `alive`, is alive by B3/S23 and differs from the old one in no other attribute |
| Conway.EffectOnSeeded | AutomataEngine/main.js:196-225 | on a tile that already has `alive`, the updater makes no `setTile` write and stages at most the rule's new tile |
| Conway.FlipOwnCell | AutomataEngine/main.js:224-225 | whatever the count, the staged change is for the updater's own cell |
| Conway.LifeWritesOwnCell | AutomataEngine/main.js:196-225 | every write of the Life updater is for the cell it is called for |
| Conway.LifeWellBehaved | AutomataEngine/main.js:195-225 | the Life updater's writes stay inside the array |
| Conway.LifeCellOnSeeded | AutomataEngine/main.js:196-225 | at a seeded cell: no immediate write, at most one record for its own cell, and that record gives B3/S23 while changing nothing but `alive` |
| Conway.LifeEffect | AutomataEngine/main.js:195-225 | the writes of one Life call; its contract is carried by `EffectOnSeeded`, `LifeWritesOwnCell`, `LifeCellOnSeeded` and `LifeUpdate` |
| Conway.LifeStepIsB3S23 | AutomataEngine/main.js:195-225 | on a seeded grid, a whole step is one Game of Life generation: every new `alive` follows B3/S23 from the previous generation's neighbours, whatever the coins, and no other attribute changes |
| Conway.LifeGivesAlive | AutomataEngine/main.js:196-203 | on any array, the seeding `setTile` leaves the cell with `alive` at once |
| Conway.LifeStepSeeds | AutomataEngine/main.js:195-225 | one step from any array, a blank one included, leaves every tile seeded, so from the second step on `LifeStepIsB3S23` applies |
| Conway.CountAliveOver | AutomataEngine/main.js:206-210 | the callback loop counts the live tiles among the visits |
| Conway.CountAliveNeighbors | AutomataEngine/main.js:205-210 | the neighbour loop returns the live-neighbour count of the cell on the current array |
| Conway.SeedTile | AutomataEngine/main.js:196-203 | a tile without `alive` gets it from the coin at once, through `setTile`; otherwise nothing changes |
| Conway.LifeUpdate | AutomataEngine/main.js:195-225 | the updater on the TileMap does exactly `LifeEffect`: its `setTile` writes land on the array, and its staged record is appended to the queue |
| Conway.LifeColorIsBlackIffAlive | AutomataEngine/main.js:226-231 | every tile gets an in-range grey; it is black exactly when `alive` is truthy, and white otherwise |
| Conway.LifeColor | AutomataEngine/main.js:226-231 | the Life colour map; its contract is `LifeColorIsBlackIffAlive` |
| Mold.MoldEffect | AutomataEngine/main.js:233-256 | the writes of one mold call; its contract is carried by `MoldWritesOwnCell` and `MoldStepRaisesLevels` |
| Mold.MoldWritesOwnCell | AutomataEngine/main.js:233-256 | every write of the mold updater is for the cell it is called for |
| Mold.MoldWellBehaved | AutomataEngine/main.js:233-256 | the mold updater's writes stay inside the array |
| Mold.MoldStepRaisesLevels | AutomataEngine/main.js:253-256 | on a grid where every tile has a level, a step raises each level by exactly one where the draw succeeded and leaves it elsewhere; nothing else changes |
| Mold.MoldGivesLevel | AutomataEngine/main.js:234-238 | on any array, the initialising `setTile` leaves the cell with `lvl` at once |
| Mold.MoldStepLevels | AutomataEngine/main.js:233-256 | one step from any array, a blank one included, gives every tile a level, so from the second step on `MoldStepRaisesLevels` applies |
| Mold.MoldShading | AutomataEngine/main.js:257-260 | a tile has a colour exactly when it has a level; the colour is grey, black at level 0, and in range up to level 43 |
| Mold.ShadeIncreases | AutomataEngine/main.js:258 | a higher level gives a strictly lighter grey |
| Mold.Shade | AutomataEngine/main.js:258 | the grey of a level; its contract is `ShadeIncreases` and `MoldShading` |
| Mold.MoldColor | AutomataEngine/main.js:257-260 | the mold colour map; its contract is `MoldShading` |
| Forest.CensusOf | AutomataEngine/main.js:274-284 | the petrified and stone counts together, and the regrowing count, never exceed the number of visits |
| Forest.Neighbors | AutomataEngine/main.js:270-284 | `p + u <= 8` and `r <= 8` |
| Forest.Count | AutomataEngine/main.js:275-283 | the callback adds a truthy `fire` to `f` and counts `petr === 1`, `0 < veg < 8` and `petr === 2` |
| Forest.CountOver | AutomataEngine/main.js:274-284 | the callback loop gives the counters of the visited tiles |
| Forest.CountNeighbors | AutomataEngine/main.js:270-284 | the neighbour loop returns the counters of the cell's neighbourhood on the current array |
| Forest.CensusIsCardinality | AutomataEngine/main.js:274-284 | `p`, `r` and `u` are the numbers of visited tiles with `petr === 1`, with `0 < veg < 8`, and with `petr === 2` |
| Forest.BurnConsumes | AutomataEngine/main.js:290-299 | when burning with vegetation, exactly `min(fire, veg)` is eaten, vegetation stays >= 0, and the fire grows by half the amount eaten, rounded up; when burning with none, the fire halves, rounded down |
| Forest.Burn | AutomataEngine/main.js:291-297 | the burn rule; its contract is `BurnConsumes` |
| Forest.Grow | AutomataEngine/main.js:286-289 | the growth branch; its contract is `FireBranchesSound` and `FireBranches` |
| Forest.BurnStep | AutomataEngine/main.js:290-299 | the burning branch; its contract is `BurnConsumes`, `FireBranchesSound` and `FireBranches` |
| Forest.Ignite | AutomataEngine/main.js:300-304 | catching fire from the neighbours; its contract is `HeavyFireIgnites`, `FireBranchesSound` and `FireBranches` |
| Forest.Petrify | AutomataEngine/main.js:305-308 | petrifying next to petrified cells; its contract is `StoneBranchesSound` and `StoneBranches` |
| Forest.Erode | AutomataEngine/main.js:309-315 | eroding next to regrowing cells; its contract is `StoneBranchesSound` and `StoneBranches` |
| Forest.Harden | AutomataEngine/main.js:316-319 | hardening next to stone; its contract is `StoneBranchesSound` and `StoneBranches` |
| Forest.Crumble | AutomataEngine/main.js:320-323 | stone crumbling; its contract is `StoneBranchesSound` and `StoneBranches` |
| Forest.Spark | AutomataEngine/main.js:324-327 | spontaneous fire; its contract is `NextKeepsSound` and `SpontaneousBranches` |
| Forest.SelfPetrify | AutomataEngine/main.js:328-331 | spontaneous petrification; its contract is `NextKeepsSound` and `SpontaneousBranches` |
| Forest.Next | AutomataEngine/main.js:285-331 | all branches in source order; its contract is `NextKeepsSound`, `HeavyFireIgnites` and `Transition` |
| Forest.FireBranchesSound | AutomataEngine/main.js:286-304 | growth, burning and catching fire keep a cell sound, and a burning cell always sets `cng` |
| Forest.StoneBranchesSound | AutomataEngine/main.js:305-323 | petrifying, eroding, hardening and crumbling keep a cell sound and never clear `cng` |
| Forest.NextKeepsSound | AutomataEngine/main.js:285-331 | all branches keep `veg` and `fire` >= 0, keep `petr` in {0, 1, 2}, never leave a cell both burning and petrified, and a burning cell always stages a change |
| Forest.HeavyFireIgnites | AutomataEngine/main.js:300-304 | with 100 or more fire around it (its own excluded), a quiet vegetated cell catches fire whatever the draws, at a tenth of that fire |
| Forest.FireBranches | AutomataEngine/main.js:286-304 | the grow, burn and ignite branches compute `Ignite(BurnStep(Grow(...)))` |
| Forest.StoneBranches | AutomataEngine/main.js:305-323 | the petrify, erode, harden and crumble branches compute their specification functions |
| Forest.SpontaneousBranches | AutomataEngine/main.js:324-331 | the spontaneous fire and petrification branches compute `SelfPetrify(Spark(...))` |
| Forest.Transition | AutomataEngine/main.js:285-331 | the branches together compute `Next` |
| Forest.InitTile | AutomataEngine/main.js:263-269 | a tile without `veg` gets `veg`, `fire` and `petr` set to 0 at once, through `setTile`; otherwise nothing changes |
| Forest.ForestUpdate | AutomataEngine/main.js:262-333 | the updater on the TileMap does exactly `ForestEffect`: its `setTile` writes land on the array, and its staged record is appended to the queue |
| Forest.StagedOwnCell | AutomataEngine/main.js:332-333 | the staged change is for the updater's own cell |
| Forest.ForestWritesOwnCell | AutomataEngine/main.js:263-333 | every write of the forest updater is for the cell it is called for |
| Forest.ForestWellBehaved | AutomataEngine/main.js:262-333 | the forest updater's writes stay inside the array |
| Forest.EffectOnInitialised | AutomataEngine/main.js:263-333 | on an initialised tile, the updater makes no `setTile` write and stages at most its own new tile |
| Forest.ForestEffect | AutomataEngine/main.js:262-333 | the writes of one forest call; its contract is carried by `ForestWritesOwnCell`, `EffectOnInitialised`, `ForestCellOnSound` and `ForestUpdate` |
| Forest.MergedSound | AutomataEngine/main.js:332-333 | merging a sound cell's attributes into a tile gives a sound tile |
| Forest.ForestCellOnSound | AutomataEngine/main.js:263-333 | at a sound cell: no immediate write, at most one record for its own cell, and the resulting tile is sound |
| Forest.ForestStepKeepsSound | AutomataEngine/main.js:262-333 | a step keeps a sound forest sound whatever the draws: every tile keeps its three attributes, non-negative vegetation and fire, `petr` in {0, 1, 2}, and no fire on a petrified cell |
| Forest.ForestGivesVeg | AutomataEngine/main.js:263-269 | on any array, the initialising `setTile` leaves the cell with `veg` at once |
| Forest.ForestStepInitialises | AutomataEngine/main.js:262-333 | one step from any array, a blank one included, gives every tile its `veg`, so no later step takes the initialisation branch |
| Forest.ForestColorInRange | AutomataEngine/main.js:334-347 | a sound tile always has an in-range colour: red of at least 42 when burning, otherwise blue for stone, grey when petrified, green elsewhere, and black for bare ground |
| Forest.ForestColor | AutomataEngine/main.js:334-347 | the forest colour map; its contract is `ForestColorInRange` |

## Left out

- Canvas drawing: `TileMap.draw` and the canvas wrapper are not part of this model. A frame's draw is counted (`Engine.draws`), not rendered.
- Timing: `performance.now` and `requestAnimationFrame` / `cancelAnimationFrame` become integer parameters. Float timestamps are not modelled.
- UI: the DOM wiring of the buttons and the preset menu is left out. The buttons' effects are the `Engine` methods.
- Randomness: every `Math.random()` comparison is a parameter, and the probabilities appear only as comments. The model does not capture how often a branch fires. Each step has its own outcomes (`updaters(k)`), and within a step each cell has its own.
- The mold updater's `upgradeChance`: it is floating-point arithmetic over the radius-3 neighbourhood, and only its outcome (`upgrade`) is modelled. For the same reason the mold updater is not written as a method on the `TileMap`.
- The commented-out `presets.eco` block is left out, because it is dead code.
- `color()` string formatting: only the integer channels are modelled, with `None` for a string that names no colour (`NaN` or `undefined` channels).
- `Automata` (AutomataEngine/main.js:144-148): an automaton is its updater, and the colour maps are separate functions. The `instanceof` check in `setAutomata` and the `console.warn` branch of `run` (no automaton selected) are left out: the engine always holds an updater.
- Dimensions: `TileMap`, `Engine.SetTileSize` and the constructor require an integer tile size `1 <= s <= 500`. In JavaScript `Math.floor` always gives whole dimensions, but a size of 0 makes them `Infinity` and the constructor's loop never ends, a size between 0 and 1 gives more than 500 columns, a size above 500 gives an empty array, and a non-integer size in `1..500` gives a valid array that an `int` size cannot express. None of these cases is modelled.
- `changeTile` queues the record `{i, j, t}` holding a reference to `t`, so an updater that mutated `t` after queueing it would change the queued record as well. A `Change` holds a copy of the tile. The three presets queue their tile as their last act, so they do not depend on this aliasing; a general updater that does is not captured.
- Out-of-range coordinates: `getTile`, `setTile` and `changeTile` require the cell to be inside the array. Every caller in the engine passes wrapped coordinates. In JavaScript such a call would throw, read an empty record, or queue a record that `applyChanges` later throws on.
- Attribute values are integers. The float and string values an attribute could hold in JavaScript are not modelled.
- `Forest.ForestUpdate` writes back all three forest attributes. The JavaScript writes back the tile it read, which differs only for a tile that has `veg` but lacks `fire` or `petr`. The updater itself never creates such a tile.
- `Forest.ForestUpdate` reads a missing `fire` as 0. For a tile with `veg` but no `fire`, JavaScript's `f -= t.fire` (AutomataEngine/main.js:300) makes `f` NaN, so such a tile can never catch fire from its neighbours, while the model can ignite it. Only a tile set up from outside the updater can be in that state; a forest the updater initialised, which `Forest.ForestStepInitialises` and `Forest.ForestStepKeepsSound` describe, never is.
- `Conway.CountAliveNeighbors` and `Forest.CountNeighbors` first collect the walker's calls and then play the callback on them. The JavaScript interleaves the two. The result is the same, since the callback only reads.
- `Stepping.Step`'s snapshot theorems need an updater that writes only to its own cell. Step itself is defined for any updater whose writes stay inside the array.
- `Engine.Engine.Run` uses `Period`, the fixed 30 ms of the source; other periods appear only in the `Clock` lemmas.
