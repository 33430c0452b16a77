# Game of Life and arrow-key dot, modelled in Dafny

This project models the two demos of the ebiten-practice repository that hold
logic of their own.

- **life/main.go**, Conway's Game of Life. The live cells are a sparse Go map
  `map[Cell]bool`. A cell is alive iff its key is present and maps to `true`.
  `Grid.update` builds the next generation into a fresh map. It reads only the
  old map and then replaces the field. The per-frame `Game.Update` works in
  this order:
  1. A mouse press toggles the cell under the cursor.
  2. Otherwise `C` clears the grid.
  3. Otherwise `Space` flips the run flag `start`.
  4. A running game steps once at least 200 ms have passed since the last step.

  Held inputs repeat: they fire on the first frame of a press, then every 3
  frames from frame 30 on.
- **dot/main.go**, a point moved by the arrow keys. Each key moves it one
  pixel. Integer `min`/`max` clamp it to `[0, 637] × [0, 477]`.

Modules, one file each:

- `LifeGrid` (life_grid.dfy): `Cell`, `getNeighbours`, the live-neighbour count,
  the rule, and the class `Grid` with its `update`.
- `LifeInput` (life_input.dfy): `repeatingButtonPressed` and
  `repeatingKeyPressed`.
- `LifeGame` (life_game.dfy): the controller `Game.Update`. It is modelled as a
  class over the package-level variables `start`, `lastUpdatedTime` and `grid`.
  The class is proved against the state function `Tick`.
- `Dot` (dot.dfy): `Game.Update` with `x`, `y`, `min` and `max`.

The imperative code stays imperative:

- `getNeighbours` is a method with two nested `for` loops.
- The counting loop of `update` is `Grid.CountLiveNeighbours`.
- `Grid.Update` fills `nextGen` in nested loops and then assigns `liveCells`.
- Both `Game.Update` methods mutate their fields.

Each method is proved equal to a specification function: `Neighbours`,
`LiveCount`, `NextGen`, `Tick` or `Walk`. The lemmas are stated about those
functions.

Framework calls become inputs:

- The press durations are a `LifeGame.Input` record.
- The cursor position is part of the same record.
- The clock is an integer `now` in milliseconds.
- The pressed keys of the dot demo are a `seq<Key>`.

### Behaviour of the code worth noting

- **Step domain.** The step scans `[0, screenWidth/cellSize) × [0, screenHeight/cellSize)`, which is 36 × 36 cells (life/main.go:102-103). The grid's `rows` and `cols` fields play no part in it.
- **Neighbours.** Neighbour lookups are not bounds-checked. A cell outside the domain counts only if the map holds it as live.
- **Leaving the domain.** A live cell outside the domain is never kept by a step.
- **Toggle.** A mouse press toggles `(mx / cellSize, my / cellSize)` with Go's truncating division. The cursor position is used as it is, with no bounds check. The toggle writes explicit `false` entries.
- **Unreachable branch.** The rule at life/main.go:116 groups as `(isAlive && n == 2) || n == 3`. The `else if` at line 119 therefore never runs. The model keeps it as a branch that is proved dead.
- **Fixed timing.** The repeat delay (30 frames), the repeat interval (3 frames) and the step interval (200 ms) are constants in the code.
- **Repeat count.** A hold of `30 + 3k` frames fires on frame 1 and on frames 30, 33, …, 30 + 3k, so `k + 2` times in all (`LifeInput.FiresOnHold`).

## Model

| member | source | states |
|---|---|---|
| `LifeGrid.GetNeighbours` | life/main.go:157-168 | the nested loops append exactly the eight offsets around `c`, skipping `(0, 0)`, in loop order |
| `LifeGrid.NeighboursAreMoore` | life/main.go:157-168 | the eight neighbours are pairwise distinct; a cell is among them iff it is not `c` and differs from `c` by at most 1 in each coordinate (no wrap-around, no bounds check) |
| `LifeGrid.IsAlive` | life/main.go:109-115 | a map lookup with Go's zero value: a missing cell reads as dead, a stored one as its stored value (also at life/main.go:237) |
| `LifeGrid.LiveCount` | life/main.go:107-112 | counting the live cells of a list never exceeds its length |
| `LifeGrid.LiveNeighbours` | life/main.go:105-112 | the live-neighbour count of any cell lies in [0, 8] |
| `LifeGrid.LiveNeighboursIsCardinality` | life/main.go:105-112 | the count equals the number of distinct live cells among the neighbours: each live neighbour is counted exactly once |
| `LifeGrid.Grid.CountLiveNeighbours` | life/main.go:107-112 | the counting loop returns the number of neighbours alive in `liveCells` |
| `LifeGrid.Survives` | life/main.go:114-124 | the rule as Go groups it is Conway B3/S23: a live cell survives with 2 or 3 neighbours, a dead one is born with exactly 3 |
| `LifeGrid.NextGen` | life/main.go:98-128 | after a step a cell is alive iff it lies in the scanned domain and the old map gives it 3 live neighbours, or 2 and it was alive; every stored entry is `true`, so no cell outside the domain is alive |
| `LifeGrid.Grid.Update` | life/main.go:98-128 | `update` replaces `liveCells` by the generation computed from the old map over the 36 × 36 domain; the unreachable `else if` branch is proved dead |
| `LifeGrid.Grid.constructor` | life/main.go:141-152 | the global grid starts with no stored cells |
| `LifeGrid.NextGenIsLocal` | life/main.go:100-118 | a cell's fate depends only on its own state and its eight neighbours in the pre-step map (snapshot semantics) |
| `LifeGrid.LiveCountLocal` | life/main.go:107-112 | two maps that agree on the aliveness of the listed cells give the same count |
| `LifeGrid.EmptyStaysEmpty` | life/main.go:116-127 | a step of a map with no live cell stores nothing |
| `LifeGrid.LoneCellDies` | life/main.go:116-127 | a lone live cell dies and no cell is born: the step stores nothing |
| `LifeGrid.BlinkerHasPeriodTwo` | life/main.go:116-127 | a vertical three-cell line away from the domain edge becomes horizontal after one step and vertical again after the second |
| `LifeGrid.VerticalTurnsHorizontalAt` | life/main.go:105-121 | per cell: after one step of the vertical line exactly the horizontal line is alive |
| `LifeGrid.HorizontalTurnsVerticalAt` | life/main.go:105-121 | per cell: after one step of the horizontal line exactly the vertical line is alive |
| `LifeInput.RepeatPressed` | life/main.go:171-201 | the frames of a hold that fire are frame 1 and the arithmetic progression 30, 33, 36, … (start Delay, step Interval), and no others |
| `LifeInput.FiresOnceBeforeDelay` | life/main.go:171-201 | over a hold of 1..n frames with n < 30 exactly one frame fires |
| `LifeInput.FiresOnHold` | life/main.go:171-201 | over a hold of 1..30 + 3k frames exactly k + 2 frames fire |
| `LifeInput.RepeatsAreSpaced` | life/main.go:171-201 | after the first frame nothing fires before frame 30, and later firings are at least 3 frames apart |
| `LifeGame.TruncDiv` | life/main.go:232-233 | Go's `/` agrees with floor division on a non-negative dividend |
| `LifeGame.TruncDivIsOdd` | life/main.go:232-233 | Go's `/` truncates toward zero: negating the dividend negates the quotient |
| `LifeGame.CursorCell` | life/main.go:229-233 | the cursor cell is the pixel over 20 truncated toward zero: a non-negative pixel lies inside the cell's 20-pixel span |
| `LifeGame.Toggle` | life/main.go:236-237 | a toggle flips the aliveness of its cell, leaves every other cell's aliveness unchanged and stores an entry for the cell |
| `LifeGame.Tick` | life/main.go:213-267 | in priority order: a mouse press flips only the cursor cell, with no clear, no change to `start` and no step; else `C` leaves no cell alive and does not step; else Space flips `start`, and the grid steps with `lastUpdatedTime := now` exactly when `start` holds and at least 200 ms have passed, otherwise the grid and `lastUpdatedTime` are unchanged |
| `LifeGame.Initial` | life/main.go:136-152 | the program starts paused with no live cell |
| `LifeGame.ToggleTwiceRestores` | life/main.go:236-237 | toggling the same cell twice restores the aliveness of every cell |
| `LifeGame.SpaceTwiceRestoresStart` | life/main.go:247-250 | two frames in which only Space fires restore `start`, whether or not either frame steps |
| `LifeGame.AtMostOneStepPerInterval` | life/main.go:252-264 | two frames less than 200 ms apart never both step |
| `LifeGame.PausedNeverSteps` | life/main.go:247-254 | while paused, a frame without Space does not step and stays paused |
| `LifeGame.Game.constructor` | life/main.go:136-152 | the globals start as `start = false`, `lastUpdatedTime = now` and an empty grid |
| `LifeGame.Game.Update` | life/main.go:213-267 | one frame changes `grid.liveCells`, `start` and `lastUpdatedTime` exactly as `Tick` says |
| `Dot.Max` | dot/main.go:52-57 | `max` returns one of its arguments, no smaller than either |
| `Dot.Min` | dot/main.go:59-64 | `min` returns one of its arguments, no larger than either |
| `Dot.Step` | dot/main.go:37-46 | ArrowDown sets `y` to `y + 1` capped at 477, ArrowUp to `y - 1` floored at 0, ArrowRight caps `x` at 637, ArrowLeft floors `x` at 0; vertical keys keep `x`, horizontal keys keep `y`, any other key changes nothing |
| `Dot.StepStaysInBounds` | dot/main.go:37-46 | one key keeps an in-bounds point in bounds |
| `Dot.WalkStaysInBounds` | dot/main.go:36-47 | any sequence of keys processed in order keeps `0 <= x <= 637` and `0 <= y <= 477` |
| `Dot.WalkFramesStaysInBounds` | dot/main.go:32-50 | any number of frames keeps an in-bounds point in bounds |
| `Dot.ReachableInBounds` | dot/main.go:19-47 | from the initial (100, 100), every reachable position is inside the window |
| `Dot.Game.constructor` | dot/main.go:19-22 | `x` and `y` start at 100 |
| `Dot.Game.Update` | dot/main.go:32-50 | the frame's keys are applied in order, as `Walk` says, and an in-bounds point stays in bounds |

## Left out

- Drawing is not modelled: `Grid.draw` and both `Draw` methods render through ebiten images. `Grid.draw` also looks live cells up by pixel coordinates, with rows and columns swapped. That is a display matter.
- The layout fields `startX`, `startY`, `rows`, `cols` and `edgeWidth` are kept as constants. Only drawing reads them.
- The clock is the parameter `now`, in milliseconds. The source compares `time.Since(lastUpdatedTime)` with 200 ms and then stores a second reading of `time.Now()`. The model uses the same instant for both readings.
- The framework's input queries are inputs to the model. This covers `inpututil.MouseButtonPressDuration`, `inpututil.KeyPressDuration`, `ebiten.CursorPosition` and `inpututil.AppendPressedKeys`.
- The framework is not modelled: window setup and `RunGame`.
- The console message printed when Space is pressed is not modelled.
- `repeatingButtonPressed` and `repeatingKeyPressed` have identical bodies, so both are modelled by `LifeInput.RepeatPressed`. The stray `Grid` constant in the first one's `const` block equals 3 and is never used.
- The `pressedKeys` field of the Life `Game` is only used in commented-out code.
- Dot keys are matched by name in the source (`key.String()`). Here they are the constructors of `Dot.Key`, with every other key as `Other`.
- The float64 demos are not part of this model: bounce, multi-bounce, shader-bounce, gravity, image, circle, square and hello. They are kinematics, shaders, image loading or pixel plotting, with no integer state logic.
- Go's `int` is 64 bits. The model uses unbounded integers. Positions stay within a few hundred and the counts within 8, so nothing here can overflow. Press durations and the clock are taken as unbounded.
