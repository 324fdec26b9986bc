# Candy Run and the soba bike: a verified model of the game logic

The repository holds two small browser games.

**Candy Run** is a Phaser maze game:
- `MazeGenerator` carves a maze by recursive backtracking over the odd-coordinate lattice of a 0/1 grid, then widens it by opening some walls that touch at least two passages.
- `Player` turns arrow and WASD keys into a velocity, a facing and a moving flag.
- `Worm` chases the player. Its head steps 1.5 pixels per frame toward the player, and its body and tail replay a shifting list of recent head positions (newest added in front, oldest dropped) at fixed lags. An invincibility flag gates its catch test.
- `GameScene` builds the maze, one static body per wall tile, candies on a quarter of the shuffled passage tiles, and the worm on the passage tile farthest from the start. On each `_collectCandy` call (the player–candy overlap callback) it counts the score and raises the pickup note. When the worm catches the player, the player is bounced to a random passage more than five tiles from the worm's head.

**The bike game** (`game.js`) keeps one mutable `state` record:
- A frame loop covers distance, scrolls the road, steers the bike between the road limits, lets the soba stack follow, spawns obstacles, and moves, culls and collides them.
- A one-second timer counts down the time.
- The Space key starts a game, or restacks soba after a crash.

The model follows the source's own form:
- Classes whose methods update fields: `Maze.MazeGenerator`, `Pursuit.Worm`, `Avatar.Player`, `Scene.GameScene`, `Bike.BikeGame`.
- Loops stay loops, with invariants.
- Pure decisions are functions: the key-to-velocity rule, the collision test, the clamps, the candy count.

Each method is specified by functions on its inputs and its old state, and lemmas prove what the games promise about those functions.

The main results:
- Every generated maze has odd dimensions, a closed outer border, and an open cell (1, 1). Every interior lattice cell is open, and every passage is reachable from (1, 1), for every outcome of `Math.random`.
- Every worm frame keeps the history exactly `historySize` long, newest first. Each body part shows the head position exactly `(i + 1) * 12` frames back, and the tail shows the oldest recorded one.
- The bike never leaves the road, its velocity never exceeds 12, and the road offset stays in [0, 100). The obstacle loop keeps exactly the obstacles still on screen. While riding, the first collision of a frame always crashes the bike, and only a second collision in the same frame ends the game for lack of soba.
- `_getFarTile` returns the first tile at the greatest distance, and the bounce candidates are exactly the interior passages more than five tiles from the worm. A caught player always lands on one of them, when there is one.
- The pickup notes climb one step per `_collectCandy` call and then hold at 494 Hz. The last entry of the scale (523 Hz) is never played.

Files:
- `geometry.dfy`: points and squared distances.
- `randomness.dfy`: `Math.random` as a sequence of outcomes.
- `maze.dfy`: `MazeGenerator.js`.
- `pursuit.dfy`: `Worm.js`.
- `avatar.dfy`: `Player.js`.
- `scene.dfy`: `GameScene.js`.
- `bike.dfy`: `game.js`.

Modelling decisions:
- `Math.random()` is `Randomness.RandomSource`, an object whose k-th draw is `rolls(k)` for an arbitrary function `rolls` with values in [0, 1). A proof about every `rolls` covers every run. `Math.floor(r * n)` is `Randomness.Below`.
- `Phaser.Utils.Array.Shuffle` is a function parameter `shuffle` that is required to return a permutation of its argument. `GetRandom` draws one value and takes the element at index `floor(r * n)`.
- Coordinates are `real`.
- Wherever the source compares `Math.sqrt(d²)` with a radius, the model compares `d²` with the radius squared. `Geometry.SquaredComparison` proves the two tests agree.
- Where the source divides by the distance (the worm's head step), the distance is an argument constrained by `dist ≥ 0 ∧ dist² = d²`. In `Scene.GameScene.Update` it is computed by a caller-supplied `root` function with that property.
- Timers are methods the caller invokes when they fire:
  - `Pursuit.Worm.CooldownExpired` is the 2 s invincibility reset;
  - `Scene.GameScene.PitchReset` is the 2 s pitch reset;
  - `Bike.BikeGame.TimerTick` is the one-second interval.
- The DOM key and mouse handlers reduce to the held-key flags passed into the frame methods.
- The source fixes the scene at 64-pixel tiles and 21 × 21 cells (`Scene.TILE`, `Scene.MAZE_COLS`, `Scene.MAZE_ROWS`). `Scene.GameScene.constructor` takes any positive tile size and any odd maze size from 3 up, so the 21 × 21 maze is one instance.

## Model

| member | source | states |
|---|---|---|
| Maze.Normalise | candy-run/js/MazeGenerator.js:8-9 | the result is odd; an even input becomes input + 1 and an odd input is unchanged |
| Maze.MazeGenerator.constructor | candy-run/js/MazeGenerator.js:6-12 | the stored dimensions are the normalised inputs and the grid is empty |
| Maze.MazeGenerator.Generate | candy-run/js/MazeGenerator.js:14-26 | for every random outcome the grid has `rows` rows of `cols` cells, every cell 0 or 1, a closed border, (1,1) open, every interior lattice cell open, and every passage reachable from (1,1) |
| Maze.MazeGenerator.Carve | candy-run/js/MazeGenerator.js:28-40 | entered only on a wall cell next to an open cell (or at the start); only opens walls, keeps the border closed and the passages connected, and leaves every lattice cell it opened with all interior lattice neighbours open; terminates because the set of walls shrinks |
| Maze.MazeGenerator.CarveToward | candy-run/js/MazeGenerator.js:31-38 | one direction of `_carve`'s loop: afterwards the lattice neighbour in that direction, when interior, is open, and the grid stays carvable and connected |
| Maze.MazeGenerator.CarveThrough | candy-run/js/MazeGenerator.js:34-37 | taken when the lattice neighbour is an interior wall: the wall between is opened and the recursive carve makes the neighbour open, only walls are opened, and every cell the recursion finished stays finished |
| Maze.MazeGenerator.ShuffledSteps | candy-run/js/MazeGenerator.js:30 | the four carving directions come back in some order: four entries forming a permutation of up, down, left and right by two cells |
| Maze.AllStepsOpened | candy-run/js/MazeGenerator.js:31-39 | once the loop has handled every entry of the shuffled directions, each of the four directions is open from the cell, so the cell is finished |
| Maze.OpenCell | candy-run/js/MazeGenerator.js:34-37 | opening an interior cell next to a passage keeps the grid shaped, binary, border-closed and connected, and changes no other cell |
| Maze.OpenKeepsConnected | candy-run/js/MazeGenerator.js:34-37 | opening a wall adjacent to a reachable passage keeps every passage reachable from (1,1) |
| Maze.LatticeCovered | candy-run/js/MazeGenerator.js:28-40 | if (1,1) is open and every open lattice cell has its interior lattice neighbours open, then every interior lattice cell is open |
| Maze.GrownShrinksWalls | candy-run/js/MazeGenerator.js:34-37 | opening a wall strictly shrinks the set of walls, so each lattice cell is carved at most once |
| Maze.MazeGenerator.Shuffle | candy-run/js/MazeGenerator.js:67-73 | the countdown swap loop leaves the array a permutation of its old contents |
| Maze.MazeGenerator.WidenPassages | candy-run/js/MazeGenerator.js:42-56 | no passage becomes a wall, the border stays closed, passages stay connected, and every newly opened cell is interior and had at least two passage neighbours on the grid as the row-major scan held it when it reached that cell |
| Maze.MazeGenerator.WidenCell | candy-run/js/MazeGenerator.js:48-52 | one cell of the widening scan: a wall cell uses exactly one draw and a passage none; the cell is opened exactly when it was a wall, its draw was below 0.30 and it had at least two passage neighbours, and the grid is otherwise unchanged; the grid stays carvable and only grows |
| Maze.WidenStep | candy-run/js/MazeGenerator.js:46-55 | one step of the scan keeps its invariant one cell further on: every cell the scan passed and opened had two passage neighbours when it was reached, and no cell from the scan position on has changed |
| Maze.CountDuringScanIsCount | candy-run/js/MazeGenerator.js:58-65 | on any grid that agrees with the final grid before a cell and with the initial grid from it on, the count of the cell's passage neighbours equals the scan-time count, whose upper and left neighbours come from the final grid and lower and right ones from the initial grid |
| Maze.CountDuringScanAtMostFinal | candy-run/js/MazeGenerator.js:58-65 | because the scan only opens cells, the count it saw is at most the count on the final grid |
| Maze.CountAdjacentPassages | candy-run/js/MazeGenerator.js:58-65 | the count is in 0..4 and equals the number of the four neighbours that are passages, out-of-range neighbours counting as walls |
| Maze.NeighbourCount | candy-run/js/MazeGenerator.js:58-65 | the number of passage neighbours is the sum of the four one-or-zero tests |
| Maze.MazeGenerator.GetPassageTiles | candy-run/js/MazeGenerator.js:76-86 | the result is the list of tile centres of the row-major passage scan |
| Maze.PassageCellsSpec | candy-run/js/MazeGenerator.js:76-86 | the passage scan holds exactly the passage cells, each once, in row-major order |
| Maze.ScanSpec | candy-run/js/MazeGenerator.js:78-84 | a nested row-then-column scan keeps exactly the selected cells of the rectangle, strictly in row-major order |
| Maze.GetStartPosition | candy-run/js/MazeGenerator.js:89-91 | the start position is the centre of cell (1,1) |
| Maze.StartIsPassageTile | candy-run/js/MazeGenerator.js:88-91 | once (1,1) is open the start position is one of the passage tiles |
| Randomness.RandomSource.Next | candy-run/js/MazeGenerator.js:48 | a draw lies in [0,1) and is the next outcome of the source |
| Randomness.Below | candy-run/js/MazeGenerator.js:69 | `floor(r * n)` for `r` in [0,1) is an index below `n` |
| Geometry.SqDist | candy-run/js/Worm.js:80-82 | the squared distance is non-negative and zero between equal points |
| Geometry.SquaredComparison | candy-run/js/scenes/GameScene.js:372 | comparing a non-negative distance with a non-negative radius agrees with comparing their squares, both for `<` and for `>` |
| Pursuit.HeadStep | candy-run/js/Worm.js:84-89 | within 4 pixels the head stays put; otherwise it moves exactly `speed / 60` and the gap to the target shrinks by exactly that much |
| Pursuit.StepAlgebra | candy-run/js/Worm.js:85-88 | the step `(dx, dy) / dist * speed * rate` has length `speed * rate` and leaves a gap of `dist - speed * rate` |
| Pursuit.HeadCloses | candy-run/js/Worm.js:84-89 | beyond the dead zone each frame strictly closes the gap, to exactly `dist - 1.5` |
| Pursuit.SegmentIndex | candy-run/js/Worm.js:99 | `min(ordinal * gap, len - 1)` is in bounds and is either the unclamped lag or the oldest entry |
| Pursuit.TrailIndices | candy-run/js/Worm.js:98-103 | with the prefilled history size every body part's index is unclamped, `(i + 1) * 12` |
| Pursuit.TailIndex | candy-run/js/Worm.js:106-109 | the tail's index is always clamped to the oldest entry, `historySize - 1` |
| Pursuit.Worm.constructor | candy-run/js/Worm.js:13-51 | `catchRadius = 0.55 * tileSize`, `historySize = (bodyCount + 1) * 12`, the history holds `historySize` copies of the start, every segment is at the start, and the worm is not invincible |
| Pursuit.Worm.Update | candy-run/js/Worm.js:78-115 | the head takes `HeadStep`; the history is the new head followed by all but the oldest old entry, so its length stays `historySize`; body part i copies the clamped index and shows the head `(i + 1) * 12` frames ago; the tail shows the oldest recorded head; invincibility is unchanged |
| Pursuit.Worm.MoveHead | candy-run/js/Worm.js:79-95 | the head takes `HeadStep` toward the target; the new head is put in front of the history and the oldest entry is dropped, so the history keeps `historySize` entries |
| Pursuit.Worm.PlaceSegments | candy-run/js/Worm.js:97-110 | body part i sits at the history entry `min((i + 1) * 12, length - 1)` and the tail at the entry for index `bodyCount + 1`; the head and history are untouched |
| Pursuit.FollowHistory | candy-run/js/Worm.js:98-103 | the `forEach` over the body parts: same number of parts, part i copied from the clamped history index for `i + 1` |
| Pursuit.Worm.TrailingSegments | candy-run/js/Worm.js:97-109 | segments placed at the clamped indices show the head positions of fixed lags |
| Pursuit.Worm.IsCatching | candy-run/js/Worm.js:118-123 | false while invincible; otherwise true exactly when the head's squared distance is below the squared catch radius (for a positive radius) |
| Pursuit.CatchBySquares | candy-run/js/Worm.js:122 | `dist < r` for a non-negative distance is `r > 0` and `dist² < r²` |
| Pursuit.Worm.OnCatch | candy-run/js/Worm.js:126-127 | the worm is invincible, so no catch test at any position succeeds, and no segment moves |
| Pursuit.Worm.CooldownExpired | candy-run/js/Worm.js:138 | the delayed call clears invincibility and moves nothing |
| Avatar.Velocity | candy-run/js/Player.js:76-88 | right beats left and down beats up; each axis is -180, 0 or 180, and both axes are scaled by 0.7071 exactly when both are non-zero |
| Avatar.OverridesWin | candy-run/js/Player.js:79-82 | with all four directions held the velocity is down-right, diagonally scaled |
| Avatar.DiagonalSpeed | candy-run/js/Player.js:85-88 | a diagonal velocity's squared speed is within 0.01 % of the axis speed squared, never above it |
| Avatar.Player.constructor | candy-run/js/Player.js:6-40 | the player starts at (x, y) with speed 180, facing right, not moving |
| Avatar.Player.Update | candy-run/js/Player.js:74-111 | the body gets `Velocity`; facing turns right for vx > 0, left for vx < 0, and is kept otherwise; `isMoving` holds exactly when some direction is held, and the emitters run exactly while moving |
| Avatar.Player.TeleportToSafety | candy-run/js/Player.js:114-116 | the player is at the safe point with a stopped body; facing and moving flags are kept |
| Scene.NextPitchIndex | candy-run/js/scenes/GameScene.js:288 | the next index is one up, capped at the last entry, and always in 1..7 |
| Scene.PitchRun | candy-run/js/scenes/GameScene.js:286-320 | after k candies of a run the index is min(k, 7), so the note played is entry min(k, 7) - 1, never 523 Hz |
| Scene.PitchesRise | candy-run/js/scenes/GameScene.js:288-314 | the notes of a run never go down |
| Scene.CandyCount | candy-run/js/scenes/GameScene.js:261 | `floor(n / 4)`: four times the count is at most n and more than n - 4 |
| Scene.PlacementSpec | candy-run/js/scenes/GameScene.js:258-266 | floor(n/4) candies; candy i sits on the i-th shuffled tile with key `item(i mod 5 + 1)`; every candy is on a passage tile and no tile copy is used twice |
| Scene.PlaceCandies | candy-run/js/scenes/GameScene.js:258-267 | the loop creates exactly the candy placement of the shuffled tiles |
| Scene.WallColor | candy-run/js/scenes/GameScene.js:241 | the colour index `(row * cols + col) mod 5` always picks a palette colour |
| Scene.NeighbourColours | candy-run/js/scenes/GameScene.js:234-241 | side-by-side wall tiles never share a colour, nor do stacked ones when the row length is not a multiple of 5 |
| Scene.WallScanSpec | candy-run/js/scenes/GameScene.js:236-253 | the wall scan lists exactly the wall cells, each once, so there is one body per wall cell |
| Scene.WallBodiesOf | candy-run/js/scenes/GameScene.js:236-255 | the nested loops produce one body per wall cell of the scan, centred on its tile, one tile square, with its palette colour |
| Scene.WallTile | candy-run/js/scenes/GameScene.js:238-250 | one cell of the scan: whether it is a wall, and its zone and colour |
| Scene.SafeCellsSpec | candy-run/js/scenes/GameScene.js:364-377 | the candidates are exactly the interior passage cells whose centre is more than five tiles from the worm's head, in row-major order |
| Scene.SafeMeansFar | candy-run/js/scenes/GameScene.js:368-372 | for a candidate cell the true distance from the head exceeds `5 * TILE`, as the source's square-root test demands |
| Scene.SafeTile | candy-run/js/scenes/GameScene.js:367-373 | one cell of the scan: whether it is a candidate, and its centre |
| Scene.SafeTilesOf | candy-run/js/scenes/GameScene.js:364-377 | the nested loops collect the centres of exactly the candidate cells, in scan order |
| Scene.GetFarTile | candy-run/js/scenes/GameScene.js:398-406 | the result is an element of the list, at least as far as every tile and strictly farther than every earlier one, so it is the first tile at the greatest distance (the first tile when no distance exceeds 0) |
| Scene.Layout | candy-run/js/scenes/GameScene.js:44-63 | a generated maze (shaped, 0/1 cells, closed border, every passage reachable from (1,1), every interior lattice cell open), its wall bodies, the candies on the shuffled passage tiles, and a worm start that is a passage tile at least as far from the start tile as every other passage tile |
| Scene.GameScene.constructor | candy-run/js/scenes/GameScene.js:5-63 | score 0 and pitch index 0; a generated maze (shaped, 0/1 cells, closed border, connected, lattice open), wall bodies and candies as laid out; the player on the start tile; a fresh, non-invincible worm with four body parts on a passage tile at least as far from the player as every other passage tile |
| Scene.GameScene.CollectCandy | candy-run/js/scenes/GameScene.js:286-321 | the score goes up by exactly 1, the index steps up with its cap, and the note played is the in-bounds entry below the index; the maze and wall bodies are untouched, and the candy list too, since the candy is destroyed later in a tween callback |
| Scene.GameScene.PitchReset | candy-run/js/scenes/GameScene.js:318-320 | the delayed call sets the pitch index back to 0 and keeps the score |
| Scene.GameScene.BouncePlayerToSafety | candy-run/js/scenes/GameScene.js:362-381 | with no candidate the player is not moved; otherwise the player lands on the candidate the random draw picks, with a stopped body |
| Scene.GameScene.Update | candy-run/js/scenes/GameScene.js:100-109 | the player takes the keys' velocity, facing, moving flag and emitters; the worm takes its head step toward the player's position, the history shifts by one, and each body part and the tail show the head at their fixed lags; a catch happens exactly when the worm was not invincible and is then within the catch radius; only then does the worm turn invincible and the player move, to a safe tile with a stopped body when there is one; with no safe tile the player stays where it was |
| Bike.CheckCollision | game.js:264-269 | a hit needs the two widths, and the two heights, to add up to a positive size |
| Bike.CollisionSymmetric | game.js:264-269 | the strict box-overlap test gives the same answer with its two boxes exchanged |
| Bike.CollisionIsSharedPoint | game.js:264-269 | for boxes of positive size a collision is exactly a point strictly inside both |
| Bike.HitWindow | game.js:233-238 | the bike hits an obstacle exactly when their centres are less than 60 apart on both axes |
| Bike.DistanceAfter | game.js:175-176 | the remaining distance is never negative, and it is 0 exactly when the frame's travel covers it |
| Bike.Rem100 | game.js:185 | JavaScript's `% 100`: the truncated remainder, in [0,100) for a non-negative operand |
| Bike.Trunc100 | game.js:185 | the quotient by 100 rounded toward zero |
| Bike.Clamp | game.js:193-205 | the result lies in the bounds, is the input when it already does, and is the nearer bound otherwise |
| Bike.SteeredVelocity | game.js:188-194 | after acceleration and friction the velocity is clamped to [-12, 12] |
| Bike.Steer | game.js:187-205 | the bike stays within the road limits; velocity is kept when the move stays on the road and zeroed when the edge stops the bike |
| Bike.LerpFactor | game.js:210 | every bowl's smoothing factor lies strictly between 0 and 1 |
| Bike.LerpBetween | game.js:211 | a smoothing step lands between the bowl and its target |
| Bike.SurvivorsSpec | game.js:222-230 | the obstacles kept are exactly the moved obstacles still on screen |
| Bike.HitOutcome | game.js:238-248 | a frame's collisions depend only on their count: none changes nothing; one with soba crashes; any with no soba, or a second with soba, ends the game |
| Bike.SecondHitEndsGame | game.js:238-248 | while riding with a full stack the first hit only crashes, and a second hit in the same frame ends the game with "You lost all soba!" |
| Bike.FlagsAfterHits | game.js:238-248 | a frame's collisions keep the game flags consistent |
| Bike.BikeGame.constructor | game.js:19-33 | the initial state record: distance 1000, time 60, five bowls at the centre, bike centred and still, no obstacles, not playing |
| Bike.BikeGame.StartGame | game.js:98-118 | playing, not crashed, distance 1000, time 60, five bowls, no obstacles, overlay hidden, timer running |
| Bike.BikeGame.GameOver | game.js:120-138 | play and timer stop; the overlay reads GOAL on a win, lost-all-soba with no soba, and time up otherwise |
| Bike.BikeGame.Crash | game.js:140-154 | the bike is crashed and the stack is empty; nothing else changes |
| Bike.BikeGame.RecoverSoba | game.js:156-169 | one more bowl but never above 5, the restacked bowl lines up with the bike (index in bounds); a full stack ends the crash and keeps only obstacles above `CANVAS_HEIGHT - 300` |
| Bike.BikeGame.SpaceKey | game.js:50-56 | idle: a game starts with distance 1000, time 60, five bowls, no obstacles, the overlay hidden and the timer running, the bike and road as they were; crashed: a bowl is restacked at the bike's position, capped at five, and at five the crash ends and the obstacles within 300 pixels of the bottom edge are cleared, nothing else changing; riding: nothing changes |
| Bike.BikeGame.TimerTick | game.js:109-117 | a tick while riding lowers the time by exactly one; with more than one second left the game flags are unchanged, and at one second left the game ends as time up; when not riding nothing changes; the other fields are untouched |
| Bike.BikeGame.Frame | game.js:85-96 | the first frame uses its own timestamp as the previous one; while riding the distance drops by the elapsed time; when not riding the flags, obstacles, distance, time, bike, road, stack and spawn time are all unchanged |
| Bike.BikeGame.Update | game.js:171-250 | the distance never goes negative and reaching 0 ends the game as a win with the bike, obstacles, road, stack and spawn time unchanged; otherwise the road scrolls modulo 100, the bike steers, the bowls follow, one obstacle spawns once a second, the list becomes the survivors, and the flags are those after the frame's collisions; the time is never changed |
| Bike.BikeGame.SpawnIfDue | game.js:215-219 | when more than one second has passed since the last spawn, exactly one obstacle of a listed kind is appended at y = -50 with x inside the road limits and the spawn time becomes now; otherwise the list and spawn time are unchanged |
| Bike.BikeGame.SteerBike | game.js:187-205 | the bike physics block computes `Steer` and changes nothing else |
| Bike.BikeGame.FollowSoba | game.js:207-213 | each bowl moves toward the bowl below it (the bottom one toward the bike) by its factor, bottom to top |
| Bike.BikeGame.SpawnObstacle | game.js:252-262 | one obstacle of a listed kind appended at y = -50 with x across the road |
| Bike.BikeGame.CollideWithBike | game.js:238-248 | an overlapping obstacle applies one collision to the flags |
| Bike.BikeGame.MoveObstacles | game.js:221-249 | the reverse splice loop leaves exactly the survivors in their order, and the flags are those after one collision per surviving overlap |

## Left out

- Rendering and effects: the drawing half of `_buildMaze`, placeholders, background, UI, sparkles, popups, flashes, tweens, particles, `draw`/`drawRoad`/`drawBike`/`drawObstacles` and the `innerText` updates. They are presentation calls into Phaser and the canvas.
- Audio (`_initAudio`, `_playPickupSound`): Web Audio calls. The model returns the pitch that would be played.
- Phaser physics and camera: colliders, overlap callbacks, the camera and post pipelines. Only the values handed to them are modelled (body velocity, positions, zones). The physics engine moving the player between frames is not modelled.
- `preload` and asset loading.
- `Math.atan2` head rotation.
- `requestAnimationFrame`, `setInterval` and `delayedCall` scheduling; each timer's effect is a method the caller invokes instead.
- DOM listeners: `keydown`, `keyup` and `mousemove` only set the held-key flags. The Space dispatch is `Bike.BikeGame.SpaceKey`.
- Floating point: coordinates are exact reals. The rounding of 0.7071, of the lerp factors and of JavaScript numbers is not modelled.
- `Math.sqrt`: replaced by squared comparisons, or by a supplied root.
- `Phaser.Utils.Array.Shuffle`, `GetRandom` and `Math.random`: random behaviour is an explicit parameter, not a generator.
- The unused `LANE_WIDTH` and `FPS` constants.
- candy-run/js/main.js (a Phaser configuration object) and bike-game/verification/verify_fix.py (a browser screenshot script) are not part of this model.
- Maze.MazeGenerator.Generate: requires normalised dimensions of at least 3. Below that, `_carve(1, 1)` indexes outside the grid, so the source has no meaningful behaviour there.
- Maze.MazeGenerator.Shuffle: states only that the array ends as a permutation, not which permutation the draws select.
- Maze.MazeGenerator.WidenPassages: states what every opened cell satisfies (it was a wall with at least two passage neighbours when the scan reached it), not that every wall selected by a draw below 0.30 with two such neighbours is opened.
- Scene.GameScene.CollectCandy: the source destroys the collected candy in a tween's completion callback. Tweens are not modelled, so the candy list is left unchanged by this method.
- Scene.GameScene.constructor: the source fixes 64-pixel tiles and a 21 × 21 maze. The model takes any positive tile size and odd size of at least 3, and states the layout for all of them.
- Scene.GameScene.Update: the worm's distance to the player is computed with the supplied `root` as the square root.
- Scene.Layout: the candies are placed on `shuffle` applied to the passage tiles. Only the permutation property of the library shuffle is assumed.
- Bike.BikeGame.Frame: in the riding case the contract states the distance covered. The rest of the riding frame's effect is stated by Bike.BikeGame.Update.
- Pursuit.Worm.constructor: the default `bodyCount = 4` argument is not modelled; callers pass it explicitly, and the scene passes 4.
