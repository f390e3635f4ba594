/** The older single-file version of the game, main.js at the top of the repository:
    the same recursive-backtracker carve without a hole pass, walls 2 high and
    `wallSize` 2, four movement flags without running, a fixed speed of 0.1 and the
    same axis-separated collision block. */
module Legacy {
  import opened Wrappers
  import opened Geometry
  import opened Grid
  import Maze
  import opened Collision
  import opened Controls
  import opened Player

  /** `mazeSize`: odd, so that the last row and column stay wall. */
  const MazeSize: int := 29

  const LegacyWallSize: real := 2.0

  /** The fixed per-frame speed. */
  const LegacySpeed: real := 0.1

  /** The wall box of main.js: `setFromObject` on a wallSize x 2 x wallSize block. */
  function LegacyWallExtent(wallSize: real): Vec3
  {
    Vec3(wallSize, 2.0, wallSize)
  }

  /** `generateMaze(size)` of main.js: the carve alone. Every open cell is reachable from
      (1,1), every odd/odd cell is open, and for odd sizes the border stays wall. */
  method GenerateMaze(size: int, shuffle: Tile -> seq<Maze.Dir>) returns (maze: array2<int>)
    requires size >= 2
    requires forall t :: Maze.IsShuffle(shuffle(t))
    ensures fresh(maze) && maze.Length0 == size && maze.Length1 == size
    ensures IsSquare(Maze.Cells(maze), size) && Binary(Maze.Cells(maze)) && IsOpen(Maze.Cells(maze), Start)
    ensures Connected(Maze.Cells(maze)) && Maze.SpanningTree(Maze.Cells(maze))
    ensures forall t :: Maze.InBounds(size, t) && Maze.OddOdd(t) ==> IsOpen(Maze.Cells(maze), t)
    ensures forall t :: Maze.InBounds(size, t) && Maze.OnBorder(size, t) ==> Maze.IsWall(Maze.Cells(maze), t)
  {
    maze := Maze.CarveFromStart(size, shuffle);
    ghost var g := Maze.Cells(maze);
    forall t | Maze.InBounds(size, t) && Maze.OnBorder(size, t) ensures Maze.IsWall(g, t) {
      Maze.CarvedAvoidsBorder(g, size, t);
      assert InGrid(g, t);
    }
  }

  /** The key a legacy handler acts on: W, S, A and D only. */
  function LegacyFieldOf(code: string): Option<Field>
  {
    if code == "KeyW" then Some(Forward)
    else if code == "KeyS" then Some(Backward)
    else if code == "KeyA" then Some(Left)
    else if code == "KeyD" then Some(Right)
    else None
  }

  /** The legacy bindings are those of js/controls.js without the run key. */
  lemma LegacyKeysAreControlsKeys(code: string)
    ensures LegacyFieldOf(code) == if code == "ShiftLeft" then None else FieldOf(code)
  {
  }

  /** The effect of one legacy key event on the four flags (the run flag stays false). */
  function LegacyApplyKey(i: Intent, code: string, pressed: bool): (r: Intent)
    ensures forall g :: Get(r, g) == if LegacyFieldOf(code) == Some(g) then pressed else Get(i, g)
  {
    match LegacyFieldOf(code)
    case None => i
    case Some(f) => Set(i, f, pressed)
  }

  /** The world centre of tile (1,1) at height `y`. */
  function StartPosition(offsetX: real, offsetZ: real, y: real): Vec3
  {
    Vec3(TileCenter(Start.x, LegacyWallSize, offsetX), y, TileCenter(Start.z, LegacyWallSize, offsetZ))
  }

  /** The player's box at its starting place touches none of the wall boxes: every
      wall tile differs from (1,1), and a 2-wide box centred on another tile is at
      least 0.5 away from the 1 x 2 x 1 player box along some axis. */
  lemma StartIsClear(g: Layout, offsetX: real, offsetZ: real)
    requires Binary(g) && IsOpen(g, Start)
    ensures Clear(Maze.BoxesOver(TilesWith(g, 1), LegacyWallSize, offsetX, offsetZ, LegacyWallExtent(LegacyWallSize)),
                  StartPosition(offsetX, offsetZ, 1.0))
  {
    var boxes := Maze.BoxesOver(TilesWith(g, 1), LegacyWallSize, offsetX, offsetZ, LegacyWallExtent(LegacyWallSize));
    var p := StartPosition(offsetX, offsetZ, 1.0);
    Maze.WallBoxesPerWall(g, LegacyWallSize, offsetX, offsetZ, LegacyWallExtent(LegacyWallSize));
    forall i | 0 <= i < |boxes| ensures !Intersects(EntityBox(p), boxes[i]) {
      var t := TilesWith(g, 1)[i];
      assert Maze.IsWall(g, t);
      assert t != Start;
      TileApart(t.x, Start.x, offsetX);
      TileApart(t.z, Start.z, offsetZ);
    }
  }

  /** Along one axis, the centre of a tile other than `b` lies at least one wall size
      away from `b`'s centre. */
  lemma TileApart(a: int, b: int, offset: real)
    ensures a != b ==>
      TileCenter(a, LegacyWallSize, offset) >= TileCenter(b, LegacyWallSize, offset) + LegacyWallSize ||
      TileCenter(a, LegacyWallSize, offset) <= TileCenter(b, LegacyWallSize, offset) - LegacyWallSize
  {
  }

  /** The wall boxes of a 29 x 29 layout, in row-major order of its wall cells. */
  function LegacyBoxes(g: Layout): seq<Box>
  {
    Maze.BoxesOver(TilesWith(g, 1), LegacyWallSize, Offset(MazeSize, LegacyWallSize), Offset(MazeSize, LegacyWallSize),
                   LegacyWallExtent(LegacyWallSize))
  }

  /** The layout `init()` works on: 29 x 29, walls and paths only, (1,1) open and every
      open cell reachable from it, the border all wall. */
  ghost predicate LegacyLayout(g: Layout)
  {
    IsSquare(g, MazeSize) && Binary(g) && Connected(g) && IsOpen(g, Start) &&
    forall t :: Maze.InBounds(MazeSize, t) && Maze.OnBorder(MazeSize, t) ==> Maze.IsWall(g, t)
  }

  /** The world centre of tile (1,1) at height 1 in the 29 x 29 maze. */
  function LegacyStart(): Vec3
  {
    StartPosition(Offset(MazeSize, LegacyWallSize), Offset(MazeSize, LegacyWallSize), 1.0)
  }

  /** The wall boxes and the player's starting place for a generated maze, at the
      offsets computed from the layout's width and height. */
  method PlaceLevel(maze: array2<int>) returns (boxes: seq<Box>, start: Vec3)
    requires maze.Length0 == MazeSize && maze.Length1 == MazeSize
    ensures boxes == LegacyBoxes(Maze.Cells(maze))
    ensures start == LegacyStart()
  {
    var wallSize := LegacyWallSize;
    var mazeWidth := maze.Length1 as real * wallSize;
    var mazeHeight := maze.Length0 as real * wallSize;
    var offsetX := -mazeWidth / 2.0 + wallSize / 2.0;
    var offsetZ := -mazeHeight / 2.0 + wallSize / 2.0;
    assert offsetX == offsetZ == Offset(MazeSize, LegacyWallSize);
    boxes := Maze.CollectWallBoxes(maze, wallSize, offsetX, offsetZ, LegacyWallExtent(wallSize));
    var startX := 1.0 * wallSize + offsetX;
    var startZ := 1.0 * wallSize + offsetZ;
    start := Vec3(startX, 1.0, startZ);
  }

  /** The player starts clear of every wall box of the level. */
  lemma LegacyStartIsClear(g: Layout)
    requires LegacyLayout(g)
    ensures Clear(LegacyBoxes(g), LegacyStart())
  {
    StartIsClear(g, Offset(MazeSize, LegacyWallSize), Offset(MazeSize, LegacyWallSize));
  }

  /** The level `init()` builds: the maze, its wall boxes and the player's start. */
  method BuildLevel(shuffle: Tile -> seq<Maze.Dir>) returns (mazeLayout: Layout, boxes: seq<Box>, start: Vec3)
    requires forall t :: Maze.IsShuffle(shuffle(t))
    ensures LegacyLayout(mazeLayout)
    ensures boxes == LegacyBoxes(mazeLayout)
    ensures start == LegacyStart()
  {
    var maze := GenerateMaze(MazeSize, shuffle);
    mazeLayout := Maze.Cells(maze);
    boxes, start := PlaceLevel(maze);
  }

  /** The module-level state of main.js. */
  class Game {
    var moveForward: bool
    var moveBackward: bool
    var moveLeft: bool
    var moveRight: bool
    var playerPos: Vec3
    var wallBoxes: seq<Box>
    var layout: Layout

    /** The flags as a movement record; there is no run key, so `run` is false. */
    function Flags(): Intent
      reads this
    {
      Intent(moveForward, moveBackward, moveLeft, moveRight, false)
    }

    /** The values the module starts with: no flag held, no wall box yet. */
    constructor ()
      ensures Flags() == Intent(false, false, false, false, false) && wallBoxes == []
    {
      moveForward, moveBackward, moveLeft, moveRight := false, false, false, false;
      playerPos := Vec3(0.0, 0.0, 0.0);
      wallBoxes := [];
      layout := [];
    }

    /** The simulation part of `init()`: a 29 x 29 maze, one wall box per wall cell pushed
        onto `wallBoxes`, and the player at the centre of tile (1,1), height 1. */
    method Init(shuffle: Tile -> seq<Maze.Dir>)
      requires forall t :: Maze.IsShuffle(shuffle(t))
      modifies this`wallBoxes, this`layout, this`playerPos
      ensures LegacyLayout(layout)
      ensures wallBoxes == old(wallBoxes) + LegacyBoxes(layout)
      ensures playerPos == LegacyStart()
    {
      var mazeLayout, boxes, start := BuildLevel(shuffle);
      wallBoxes := wallBoxes + boxes;
      layout := mazeLayout;
      playerPos := start;
    }

    /** `onKeyDown(event)`. */
    method OnKeyDown(code: string)
      modifies this
      ensures Flags() == LegacyApplyKey(old(Flags()), code, true)
      ensures playerPos == old(playerPos) && wallBoxes == old(wallBoxes) && layout == old(layout)
    {
      if code == "KeyW" {
        moveForward := true;
      } else if code == "KeyS" {
        moveBackward := true;
      } else if code == "KeyA" {
        moveLeft := true;
      } else if code == "KeyD" {
        moveRight := true;
      }
    }

    /** `onKeyUp(event)`. */
    method OnKeyUp(code: string)
      modifies this
      ensures Flags() == LegacyApplyKey(old(Flags()), code, false)
      ensures playerPos == old(playerPos) && wallBoxes == old(wallBoxes) && layout == old(layout)
    {
      if code == "KeyW" {
        moveForward := false;
      } else if code == "KeyS" {
        moveBackward := false;
      } else if code == "KeyA" {
        moveLeft := false;
      } else if code == "KeyD" {
        moveRight := false;
      }
    }

    /** The movement part of `animate()`: the delta from the four flags at speed 0.1,
        resolved against `wallBoxes` axis by axis. `direction` and `sideways` are the
        camera's normalised facing and sideways vectors. */
    method Animate(direction: Vec3, sideways: Vec3)
      modifies this`playerPos
      ensures playerPos == Resolve(old(playerPos),
                                   MoveDelta(old(moveForward), old(moveBackward), old(moveLeft), old(moveRight),
                                             direction, sideways, LegacySpeed),
                                   wallBoxes)
      ensures Flags() == old(Flags()) && wallBoxes == old(wallBoxes) && layout == old(layout)
    {
      var moveDelta := AccumulateDelta(moveForward, moveBackward, moveLeft, moveRight,
                                       direction, sideways, LegacySpeed);
      var nextPosition := ResolveMove(playerPos, moveDelta, wallBoxes);
      playerPos := nextPosition;
    }
  }
}
