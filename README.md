# Maze chase: a verified model of the game's simulation core

This project models the grid-and-box simulation of a first-person maze-chase game
built with three.js.

- **Layout.** The level is a square integer grid, with 1 for a wall and 0 for a path.
- **Maze generation.** A recursive backtracker carves the grid in place from tile (1,1), moving two cells at a time. The current generator then punches a few random holes. The older single-file version of the game has no hole pass. Before any hole is punched, the carved grid is a spanning tree of its odd/odd rooms: each open cell between two rooms joins exactly those two, and there is one such passage fewer than there are rooms, so the maze has no loop.
- **Wall boxes.** Every wall cell becomes one axis-aligned collision box.
- **Player.** The player moves by a per-frame delta built from the held keys. Each axis of the move is kept only if a 1 x 2 x 1 box shifted along that axis alone touches no wall box.
- **Enemy.**
  - It patrols from tile to neighbouring tile in WALK mode.
  - It switches for good to CHASE once it has a clear view of the player along a row or a column.
  - In CHASE it steps straight at the player.
- **Glowing dots.** Dots are placed on distinct walkable tiles. A dot is picked up when the player comes within distance 2, and the game is won when none are left.

The model follows the form of the original code:

- **In-place grid mutation.** Carving and the hole loop change an `array2<int>` in place. The wall-box loops only read it and build a list of boxes. All their contracts are stated over the value `Maze.Cells(maze)`.
- **Module state.** The module-level state of each component becomes a class whose methods change its fields:
  - the key flags;
  - the player position;
  - the enemy's mode, target and position;
  - the list of dots;
  - the older game's globals.
- **Pure code.** Pure code is a function, and everything the code promises is proved as a lemma about those functions. Examples:
  - the sight test, with `CanSeePlayer` as its loop;
  - tile rounding;
  - the target choice;
  - the dot filter.
- **Inputs.** Randomness is an input to the model:
  - the direction order at each carved cell;
  - the hole coordinates;
  - the order of the enemy's neighbours;
  - the order of the walkable tiles.

  The camera's facing vector, its sideways vector and vector normalisation are inputs too.
- **Numbers.** Reals stand for JavaScript doubles.

Modules (one file each):

| Module | What it holds |
|---|---|
| `Geometry` | vectors and boxes |
| `Grid` | tiles, layouts, row-major tile lists and reachability from (1,1) |
| `Maze` | js/maze.js |
| `Collision` | the axis-separated resolution shared by js/player.js and main.js |
| `Controls` | js/controls.js |
| `Player` | js/player.js |
| `Enemy` | js/enemy.js |
| `Collectibles` | js/collectibles.js |
| `Legacy` | main.js at the top of the repository |

`Wrappers` holds `Option`.

## Model

| member | source | states |
|---|---|---|
| Maze.ShuffleCovers | js/maze.js:16 | a shuffled copy of the four moves has four entries and holds every one of the moves |
| Maze.MoveGeometry | js/maze.js:18-21 | a move from an odd/odd cell that stays in bounds lands on an odd/odd cell inside the carvable range; the cell it passes over is adjacent to both ends, differs from them and has exactly one even coordinate |
| Maze.MoveKeepsConnected | js/maze.js:20-21 | opening the passed-over cell and the target next to an open cell keeps every open cell reachable from (1,1) and closes nothing |
| Maze.MoveKeepsShape | js/maze.js:20-21 | after a move every cell is still 0 or 1 and only carvable cells (never even/even, never outside [1, last odd index]) are open |
| Maze.MoveRemovesWall | js/maze.js:19-21 | a move whose target is a wall strictly shrinks the set of wall cells, the measure that makes carving terminate |
| Maze.NeverClosesKeepsWalls | js/maze.js:20-21 | when no open cell closes, the set of walls does not grow |
| Maze.MoveKeepsExplored | js/maze.js:17-22 | cells whose four moves were all dealt with stay so after a move; only the new target joins the cells still being carved |
| Maze.CarveMove | js/maze.js:19-22 | one move keeps the carving invariant (square, 0/1, carvable, connected) and the spanning-tree shape. It closes nothing, opens an odd/odd target and removes a wall |
| Maze.MoveKeepsTree | js/maze.js:19-21 | a move onto a wall room adds exactly one room (the target) and one passage (the cell passed over), and that passage joins the cell the move starts from to the target; so every passage still joins two open cells and there is still one passage fewer than rooms |
| Maze.BetweenJoins | js/maze.js:18-21 | the two cells a passed-over cell joins along its axis are exactly the cell the move starts from and the cell it lands on |
| Maze.SingleRoomTree | js/maze.js:26 | a grid whose only open cell is (1,1) is a spanning tree: one room, no passage |
| Maze.OpenFieldIsNoTree | js/maze.js:15-27 | the 5 x 5 grid with its whole inner ring open has only carvable cells open (so the carving invariant alone allows it) but is not a spanning tree: four passages for four rooms close a loop |
| Maze.OddCellOpen | js/maze.js:15-27 | once the carve from (1,1) has finished, every odd/odd cell of the grid is open |
| Maze.AllOddCellsOpen | js/maze.js:15-27 | the same for all odd/odd cells at once |
| Maze.OpenPassage | js/maze.js:20-21 | the two writes open exactly the target and the passed-over cell and leave every other cell as it was |
| Maze.SettledSurvives | js/maze.js:17-24 | moves already dealt with stay dealt with as carving continues |
| Maze.FinishExplored | js/maze.js:16-24 | after the loop over a shuffled list of the four moves, the cell has had every move dealt with |
| Maze.Carve | js/maze.js:15-25 | `carve` keeps the grid square and 0/1, with only carvable, reachable cells open, and keeps the open cells a spanning tree of the rooms (every passage joins two open cells, one passage fewer than rooms). It never closes a cell and terminates because the wall set shrinks. On return every move from (x, y) and from every cell opened under it has been dealt with |
| Maze.CarveToward | js/maze.js:18-23 | one loop iteration: (x, y) stays open, the invariant and the spanning-tree shape hold and, afterwards, the move's target is off the grid or open |
| Maze.CarveThrough | js/maze.js:20-22 | the carving branch of the iteration: after opening the target and the passed-over cell and carving from the target, (x, y) is open, the invariant and the spanning-tree shape hold, nothing closed and the target is open |
| Maze.OpenCell | js/maze.js:26 | setting one array cell to 0 changes that cell of the layout and nothing else |
| Maze.NewWallGrid | js/maze.js:14 | a fresh size x size array with every cell 1 |
| Maze.StartGrid | js/maze.js:14-26 | the all-wall grid with (1,1) opened satisfies the carving invariant and is a spanning tree, with (1,1) the only cell not yet explored |
| Maze.CarveFromStart | js/maze.js:14-27 | after `maze[1][1] = 0; carve(1, 1)` the grid is size x size and 0/1; every open cell is carvable and reachable from (1,1); every odd/odd cell is open; the open cells form a spanning tree of the rooms, so the carved maze has no loop |
| Maze.CarvedAvoidsBorder | js/maze.js:15-25 | carving never opens row or column 0, nor the last row or column when the size is odd, nor a cell with both coordinates even |
| Maze.HoleCount | js/maze.js:29 | the number of hole attempts is the largest whole number not above 5% of the size x size cells, and never negative |
| Maze.Punched | js/maze.js:30-36 | definition: the picks applied in order, each opening its cell only when it is a wall strictly inside the two outer rings; its properties are the `Punched…` lemmas below |
| Maze.PunchedKeepsShape | js/maze.js:29-36 | the hole pass keeps the grid square and 0/1 and closes no cell |
| Maze.PunchedOpensPicked | js/maze.js:33-34 | every cell the hole pass opens is one of the random picks and satisfies 1 < x < size-2 and 1 < z < size-2 |
| Maze.PunchRemovesAtMostOne | js/maze.js:33-35 | one hole attempt removes at most the picked cell from the wall set |
| Maze.PunchedWallCount | js/maze.js:29-36 | the hole pass removes at most as many walls as there are attempts |
| Maze.PunchHoles | js/maze.js:30-36 | the array after the hole loop is the layout with every allowed pick opened, in order |
| Maze.HolePass | js/maze.js:29-36 | after the hole pass: square, 0/1, (1,1) open, nothing closed, at most one opened cell per attempt (each a picked interior cell); row and column 0 stay wall, and so do the last row and column when the size is odd |
| Maze.BoxesOverIndex | js/maze.js:60-73 | box i of the list is the wall box of the i-th tile |
| Maze.WallBoxesPerWall | js/maze.js:60-73 | there is exactly one box per wall cell, in row-major order; box i is centred at (x·wallSize+offsetX, 1, z·wallSize+offsetZ) of the i-th wall cell |
| Maze.BoxesStep | js/maze.js:62-70 | visiting one more cell adds its box exactly when the cell is 1 |
| Maze.CollectRowBoxes | js/maze.js:61-72 | the inner `forEach` appends the boxes of row z's wall cells, left to right |
| Maze.CollectWallBoxes | js/maze.js:60-73 | the nested `forEach` yields the row-major list of wall boxes of the layout |
| Maze.GenerateMaze | js/maze.js:11-76 | the layout is size x size, 0/1 and has (1,1) open. Before the hole pass it was connected, with every odd/odd cell open, and a spanning tree of the rooms. Holes only open picked interior cells, at most floor(size·size·0.05) of them. Row and column 0 stay wall, and so do the last row and column when the size is odd. The offsets are -size·wallSize/2 + wallSize/2, with one box per wall cell |
| Geometry.OffsetCentresMaze | js/maze.js:57-58 | with that offset the centres of the first and the last tile are opposite: the maze is centred on the origin |
| Grid.RowTilesMembers | js/collectibles.js:10-14 | scanning row z up to column x lists exactly the cells of that row equal to v, left to right |
| Grid.TilesBeforeMembers | js/collectibles.js:9-15 | scanning the rows above z lists exactly their cells equal to v, in row-major order |
| Grid.TilesWithExactly | js/collectibles.js:7-15 | the full scan lists every cell equal to v exactly once, in row-major order |
| Grid.OpenBesideKeepsConnected | js/maze.js:20-21 | opening a cell next to an open cell keeps every open cell reachable from (1,1) |
| Collision.Resolve | js/player.js:42-54 | definition of the resolved position: X part kept unless the X-only box hits a wall, likewise Z, y unchanged; characterised by `Collision.ResolvePerAxis` and the lemmas after it |
| Collision.HitsAny | js/player.js:47 | `some` is true exactly when one of the wall boxes intersects the candidate box |
| Collision.ResolveMove | js/player.js:42-54 | the collision block computes the resolved position: each axis tested from the current position and applied when its shifted box is clear |
| Collision.ResolvePerAxis | main.js:159-175 | the X part is applied iff no box meets the X-only candidate, likewise Z, both from the original position; y never changes |
| Collision.ResolveFreeOrStuck | js/player.js:53-56 | with neither axis blocked the position moves by (dx, 0, dz); with both blocked it is unchanged |
| Collision.ResolveWithoutWalls | js/player.js:45-54 | with no wall boxes the whole horizontal move is applied |
| Collision.AxisMoveStaysClear | js/player.js:45-54 | a move along one axis that starts clear of every wall box ends clear of them |
| Collision.HitsOne | js/player.js:47 | against a single wall box the test is that box's intersection test |
| Collision.SlideAlongWall | js/player.js:45-54 | an illustration on one concrete case: a wall straight ahead along X stops the X part of a diagonal move and lets the Z part through |
| Collision.CornerClip | main.js:159-172 | an illustration on one concrete case: a wall diagonally ahead is missed by both single-axis tests, so the diagonal move ends overlapping it |
| Controls.Set | js/controls.js:8-12 | an assignment to one field leaves every other field as it was |
| Controls.ApplyKey | js/controls.js:6-24 | a key event sets the flag its code drives to pressed/released and leaves every other flag as it was |
| Controls.KeyBindings | js/controls.js:7-13 | W, S, A, D and ShiftLeft drive forward, backward, left, right and run, and each flag has a key |
| Controls.AtMostOneFlag | js/controls.js:6-24 | an event changes at most one flag, and a code without a case changes nothing |
| Controls.ApplyKeyIdempotent | js/controls.js:6-24 | delivering the same event twice equals delivering it once |
| Controls.DownThenUp | js/controls.js:6-24 | after key down then key up the key's flag is false whatever it was, all others unchanged |
| Controls.MoveState.constructor | js/controls.js:1-4 | the `moveState` record that `setupControls` hands to both handlers starts with all five flags clear (js/main.js, which creates it, is not part of this model) |
| Controls.MoveState.HandleKeyDown | js/controls.js:6-14 | `handleKeyDown` changes `moveState` as `ApplyKey(…, true)` says |
| Controls.MoveState.HandleKeyUp | js/controls.js:16-24 | `handleKeyUp` changes `moveState` as `ApplyKey(…, false)` says |
| Player.MoveDelta | js/player.js:36-40 | definition of the frame's move: the net move of the forward/backward pair along the facing plus that of the left/right pair along the sideways vector, each at `speed`; characterised by the lemmas below |
| Player.Speed | js/player.js:34 | the speed is the base speed 0.05, doubled while running, and always positive |
| Player.OppositeKeysCancel | js/player.js:37-40 | forward with backward held moves exactly as neither of them, whatever left and right are; left with right held moves exactly as neither of them, whatever forward and backward are |
| Player.SingleKeyDelta | js/player.js:36-40 | forward alone moves `speed` along the facing, left alone along the sideways vector, no key gives the zero delta |
| Player.PairNet | js/player.js:37-38 | adding a key's move and then the opposite key's negated move adds the pair's net move |
| Player.StepwiseNet | js/player.js:36-40 | the four conditional additions, in source order, add up to the net move of both pairs |
| Player.AccumulateDelta | js/player.js:36-40 | the delta built by `addScaledVector` step by step equals the net move `MoveDelta` |
| Player.NoKeysNoMove | js/player.js:36-56 | with no key held the position does not change, walls or not |
| Player.PlayerBody.constructor | js/player.js:9 | the player box starts at height 1 over (x, z) |
| Player.PlayerBody.UpdatePlayerPosition | js/player.js:23-56 | with movement disabled nothing changes; otherwise the new position is the old one resolved against the wall boxes with the key delta at the chosen speed |
| Enemy.Round | js/enemy.js:137-138 | `Math.round` gives the integer k with k-0.5 <= r < k+0.5 |
| Enemy.RoundUnique | js/enemy.js:137-138 | that integer is unique |
| Enemy.WorldToTileExactly | js/enemy.js:135-140 | a position maps to tile t iff along each axis it is within half a tile of t's centre (upper edge excluded) |
| Enemy.TileRoundTrip | js/enemy.js:135-140 | for wallSize > 0 the centre of tile t (any height) maps back to t |
| Enemy.WorldToTile | js/enemy.js:135-140 | the tile of a position is the one whose index is within half a tile of the position along each axis (the upper edge excluded) |
| Enemy.ReachedTarget | js/enemy.js:142-144 | reaching a target implies being strictly within 0.3 of it along x and along z |
| Enemy.ReachedIsWithin | js/enemy.js:142-144 | the squared test is the test distance < 0.3 |
| Enemy.CanSeePlayer | js/enemy.js:146-166 | the scan answers the sight rule: same column or row and every cell strictly between open |
| Enemy.SightSymmetric | js/enemy.js:146-166 | the enemy sees the player iff the player's tile sees the enemy's |
| Enemy.NoSightOffAxis | js/enemy.js:165 | tiles sharing neither column nor row never see each other |
| Enemy.NeighboursSee | js/enemy.js:147-153 | identical or adjacent tiles always see each other |
| Enemy.WallBlocksSight | js/enemy.js:150-160 | a non-path cell strictly between two tiles of a column or row blocks sight |
| Enemy.FirstQualifyingSpec | js/enemy.js:100-117 | the choice is none iff no step qualifies. Otherwise it is the target of step i of the order, where every step before i fails to qualify; that target is open and clear of the walls and carries its tile centre as world position |
| Enemy.ChosenIsNeighbour | js/enemy.js:93-117 | with a shuffled order of the four steps, a chosen target is an open 4-neighbour; there is none iff no 4-neighbour qualifies |
| Enemy.PickTarget | js/enemy.js:100-117 | the `for … break` loop returns the first qualifying neighbour, or none |
| Enemy.SpeedOf | js/enemy.js:64 | the per-frame speed of each mode is positive |
| Enemy.ModeTransitions | js/enemy.js:54-55 | CHASE is never left; WALK becomes CHASE exactly when the enemy's tile sees the player's tile |
| Enemy.ChaseStep | js/enemy.js:66-89 | a blocked CHASE step leaves the position unchanged; an unblocked one moves to the chase position; the target is kept either way |
| Enemy.WalkStep | js/enemy.js:92-132 | in WALK a blocked step keeps the position and drops the target, a free step moves to it, no target means no move. A new target is a qualifying 4-neighbour |
| Enemy.NoChoiceKeepsTarget | js/enemy.js:92-117 | when a new target is needed and no neighbour qualifies, the old target value stays |
| Enemy.MovesStayClear | js/enemy.js:66-131 | whenever a frame moves the enemy, its box at the new position touches no wall box |
| Enemy.UpdateAgent | js/enemy.js:46-133 | after one frame the enemy is in CHASE exactly when it was before or its tile sees the player's tile; it is either where it was or somewhere its box touches no wall box |
| Enemy.EnemyAgent.GetEnemyState | js/enemy.js:10-12 | definition: reads the current mode and changes nothing; `Enemy.EnemyAgent.UpdateEnemy` guarantees that once it reports CHASE it keeps doing so |
| Enemy.EnemyAgent.constructor | js/enemy.js:7-8 | the module starts in WALK with no target and no enemy |
| Enemy.EnemyAgent.LoadEnemy | js/enemy.js:14-23 | `loadEnemy` records the level. Its spawn point is the centre of tile (columns-2, rows-2), which maps back to that tile. Mode, target and position are unchanged |
| Enemy.EnemyAgent.ModelLoaded | js/enemy.js:27-30 | once the model arrives the enemy stands at the spawn point; only `loaded` and the position change |
| Enemy.EnemyAgent.UpdateEnemy | js/enemy.js:46-133 | only mode, target and position may change, so the level, the spawn point and the load flags are kept. Before the model has loaded nothing changes; afterwards the three become one frame of `UpdateAgent`. A mode of CHASE is never left |
| Collectibles.WalkableTiles | js/collectibles.js:7-15 | the nested loops collect exactly the cells equal to 0, once each, in row-major order |
| Collectibles.Placed | js/collectibles.js:17-28 | definition: one dot per tile for the first `amount` walkable tiles in shuffled order, at the tile's centre and height 1.5; its properties are `Collectibles.PlacedOnOpenTiles` and `Collectibles.PlacedApart` |
| Collectibles.PlacedOnOpenTiles | js/collectibles.js:17-28 | there are min(amount, walkable tiles) dots. Dot i stands over the centre of an open tile at height 1.5, and no two dots share a tile |
| Collectibles.PlacedApart | js/collectibles.js:26-28 | with a positive wall size no two dots have the same position |
| Collectibles.Remaining | js/collectibles.js:52-60 | the filter never grows the list and keeps exactly the dots that are not within reach |
| Collectibles.RemainingAppend | js/collectibles.js:52-60 | the filter keeps the dots' order: filtering a concatenation concatenates the filtered parts |
| Collectibles.RemainingIdempotent | js/collectibles.js:52-60 | a second pickup from the same position removes nothing more |
| Collectibles.CollectedIsNear | js/collectibles.js:50-54 | the squared test is the test distance < 2 |
| Collectibles.DotField.constructor | js/collectibles.js:3 | the dot list starts empty |
| Collectibles.DotField.SpawnDots | js/collectibles.js:6-39 | `dots` becomes the dots on the first `amount` walkable tiles in the shuffled order |
| Collectibles.DotField.AnimateDots | js/collectibles.js:41-47 | every dot keeps its x, z and base height; its height becomes baseY - 0.3 + 0.2·sine, so it stays within [baseY-0.5, baseY-0.1] |
| Collectibles.DotField.CheckDotCollection | js/collectibles.js:49-63 | `dots` becomes the filtered list, and the result is true iff it is empty |
| Legacy.GenerateMaze | main.js:10-33 | the older generator returns a size x size 0/1 grid with (1,1) open. Every open cell is reachable from (1,1) (no hole pass), every odd/odd cell is open and the open cells form a spanning tree of the rooms. For odd sizes the border is wall |
| Legacy.LegacyKeysAreControlsKeys | main.js:119-135 | the older key bindings are those of js/controls.js without the run key |
| Legacy.LegacyApplyKey | main.js:119-135 | W/S/A/D set or clear exactly the matching flag; other codes change nothing |
| Legacy.StartIsClear | main.js:104-108 | the player's box at the centre of tile (1,1) touches none of the 2 x 2 x 2 wall boxes |
| Legacy.TileApart | main.js:76 | the centres of two different tile indices are at least one wall size apart |
| Legacy.PlaceLevel | main.js:66-108 | the offsets from the layout's width and height give one box per wall cell, and the start at 1·wallSize + offset on both axes |
| Legacy.LegacyStartIsClear | main.js:105-108 | in every generated level the player starts clear of the walls |
| Legacy.BuildLevel | main.js:58-108 | a 29 x 29 connected level, its wall boxes and the start at tile (1,1) |
| Legacy.Game.constructor | main.js:6-8 | the flags start clear and there is no wall box yet |
| Legacy.Game.Init | main.js:36-117 | `init()` leaves a 29 x 29 connected layout with border walls and pushes its wall boxes. The player stands at the centre of tile (1,1), height 1 |
| Legacy.Game.OnKeyDown | main.js:119-126 | the flags change as `LegacyApplyKey(…, true)` says, nothing else |
| Legacy.Game.OnKeyUp | main.js:128-135 | the flags change as `LegacyApplyKey(…, false)` says, nothing else |
| Legacy.Game.Animate | main.js:137-175 | the player position becomes the old one resolved against the wall boxes with the flags' delta at speed 0.1 |

## Left out

- Rendering and everything visual is not modelled: the scene, camera, renderer, lights, textures, materials, ground, the LED strips of js/maze.js (they only widen the wall boxes, see `Maze.MazeWallExtent`), `visible` flags of dots and lights, and the minimap.
- The FBX loading, the animation mixer and its walk/run actions, `rotateEnemyTowards`, the enemy's `userData.tile`/`direction` and the "game over" log in js/enemy.js are asset and console plumbing.
- DOM and event wiring (`setupControls`, `addEventListener`, pointer lock, `requestAnimationFrame`) is not modelled. js/main.js, js/startScene.js and js/minimap.js are not part of this model.
- `Math.random` is replaced by inputs. These are the direction order at each carved cell, the hole picks, the enemy's neighbour order and the permutation of the walkable tiles. The bias of sorting with a random comparator is not modelled, and neither is any distribution.
- The three.js vector maths that depends on the camera is given as input:
  - `getWorldDirection`;
  - `crossVectors`;
  - `normalize`.
- Floating-point rounding is not modelled: reals stand for doubles, and distances are compared squared.
- The sine in `animateDots` is an input. Each dot's sine value is given, with the time accumulation left out.
- The camera and lantern updates after a player move are rendering only and are not modelled.
- Player.PlayerBody.UpdatePlayerPosition: `window.disableMovement` is a parameter.
- `createPlayer`'s lantern is rendering only. The code that calls `createPlayer` and passes it (x, z) is not part of this model.
- Enemy.CanSeePlayer: a scan through a row index missing from the layout counts as a closed cell. In JavaScript such a scan throws a TypeError instead.
- Enemy.WorldToTile and Enemy.EnemyAgent.LoadEnemy require a positive wall size. The code never receives another one, and a zero size would give non-finite tiles.
- Enemy.EnemyAgent.LoadEnemy requires a non-empty layout. On an empty one `maze[0].length` throws.
- Enemy.EnemyAgent.UpdateEnemy: no contract states anything about the enemy's height; y is carried in the position but not constrained. A missing `window.wallBoxes` is modelled as an empty list of boxes, which is what `checkCollision` then amounts to.
- Enemy.SpeedOf: its contract states only that the speed is positive. The constants 0.02 and 0.06 appear in its body and in `UpdateEnemy`.
- Collectibles.DotField.SpawnDots: `amount` is a natural number. A negative amount is not modelled, since `slice` would then count from the end. The default amount 20 is `Collectibles.DefaultAmount`.
- Maze.CarveFromStart, Maze.GenerateMaze and Legacy.GenerateMaze require size >= 2: for a smaller size `maze[1][1] = 0` throws in the source (js/maze.js:26, main.js:30), and every caller passes 21 or 29.
- Legacy.Game.Init: the ground plane, the camera height and the event registrations are not modelled. That the player starts clear of the walls is stated by `Legacy.LegacyStartIsClear`, not in `Init`'s contract.
