/** The enemy of js/enemy.js: a patrol that wanders from tile to neighbouring tile in
    WALK mode, switches for good to CHASE once it has an unobstructed line of sight
    along a row or a column of the grid, and then steps straight at the player. The
    animation mixer, the FBX assets and the model's rotation are not modelled; the
    vector normalisation (three.js `normalize`) and the random order of the four
    neighbours are inputs. */
module Enemy {
  import opened Wrappers
  import opened Geometry
  import opened Grid
  import opened Collision

  // ---------------------------------------------------------------------------------
  // Tiles and world positions

  /** `Math.round`: the nearest integer, a half rounded up. */
  function Round(r: real): (k: int)
    ensures k as real - 0.5 <= r < k as real + 0.5
  {
    (r + 0.5).Floor
  }

  /** The nearest integer is the only integer within half a unit below or strictly
      less than half a unit above. */
  lemma RoundUnique(r: real, k: int)
    requires k as real - 0.5 <= r < k as real + 0.5
    ensures Round(r) == k
  {
  }

  /** `worldToTile`: the tile whose centre is nearest along each axis. */
  function WorldToTile(pos: Vec3, offsetX: real, offsetZ: real, wallSize: real): (t: Tile)
    requires wallSize > 0.0
    ensures t.x as real - 0.5 <= (pos.x - offsetX) / wallSize < t.x as real + 0.5
    ensures t.z as real - 0.5 <= (pos.z - offsetZ) / wallSize < t.z as real + 0.5
  {
    Tile(Round((pos.x - offsetX) / wallSize), Round((pos.z - offsetZ) / wallSize))
  }

  /** The world position at the centre of a tile, at ground height 0. */
  function TileWorld(t: Tile, offsetX: real, offsetZ: real, wallSize: real): Vec3
  {
    Vec3(TileCenter(t.x, wallSize, offsetX), 0.0, TileCenter(t.z, wallSize, offsetZ))
  }

  lemma DivideBack(k: int, w: real)
    requires w > 0.0
    ensures (k as real * w) / w == k as real
  {
  }

  /** A position maps to tile `t` exactly when it lies within half a tile of `t`'s
      centre along each axis (the upper edge belonging to the next tile). */
  lemma WorldToTileExactly(pos: Vec3, offsetX: real, offsetZ: real, wallSize: real, t: Tile)
    requires wallSize > 0.0
    ensures WorldToTile(pos, offsetX, offsetZ, wallSize) == t <==>
              (t.x as real - 0.5 <= (pos.x - offsetX) / wallSize < t.x as real + 0.5 &&
               t.z as real - 0.5 <= (pos.z - offsetZ) / wallSize < t.z as real + 0.5)
  {
    if t.x as real - 0.5 <= (pos.x - offsetX) / wallSize < t.x as real + 0.5 {
      RoundUnique((pos.x - offsetX) / wallSize, t.x);
    }
    if t.z as real - 0.5 <= (pos.z - offsetZ) / wallSize < t.z as real + 0.5 {
      RoundUnique((pos.z - offsetZ) / wallSize, t.z);
    }
  }

  /** The round trip from tile to world and back: the centre of a tile (at any height)
      maps to that tile. */
  lemma TileRoundTrip(t: Tile, y: real, offsetX: real, offsetZ: real, wallSize: real)
    requires wallSize > 0.0
    ensures WorldToTile(Vec3(TileCenter(t.x, wallSize, offsetX), y, TileCenter(t.z, wallSize, offsetZ)),
                        offsetX, offsetZ, wallSize) == t
  {
    DivideBack(t.x, wallSize);
    DivideBack(t.z, wallSize);
    assert (TileCenter(t.x, wallSize, offsetX) - offsetX) / wallSize == t.x as real;
    assert (TileCenter(t.z, wallSize, offsetZ) - offsetZ) / wallSize == t.z as real;
    RoundUnique(t.x as real, t.x);
    RoundUnique(t.z as real, t.z);
  }

  /** A patrol target: the tile and its world position. */
  datatype Target = Target(tile: Tile, worldPos: Vec3)

  /** A square below 0.09 belongs to a number strictly between -0.3 and 0.3. */
  lemma WithinSquare(d: real, s: real)
    requires s >= d * d
    ensures s < 0.09 ==> -0.3 < d < 0.3
  {
    if d >= 0.3 {
      assert d * d >= 0.3 * d >= 0.09;
    } else if d <= -0.3 {
      assert d * d >= -0.3 * d >= 0.09;
    }
  }

  /** `reachedTarget`: within 0.3 of the target's world position, compared squared. */
  predicate ReachedTarget(pos: Vec3, target: Target): (r: bool)
    ensures r ==> -0.3 < pos.x - target.worldPos.x < 0.3 && -0.3 < pos.z - target.worldPos.z < 0.3
  {
    var dx, dy, dz := pos.x - target.worldPos.x, pos.y - target.worldPos.y, pos.z - target.worldPos.z;
    assert Dist2(pos, target.worldPos) == dx * dx + dy * dy + dz * dz;
    WithinSquare(dx, dx * dx + dy * dy + dz * dz);
    WithinSquare(dz, dx * dx + dy * dy + dz * dz);
    Dist2(pos, target.worldPos) < 0.09
  }

  /** With `d` the (non-negative) distance, the squared comparison is the comparison
      of the distance with 0.3. */
  lemma ReachedIsWithin(pos: Vec3, target: Target, d: real)
    requires d >= 0.0 && d * d == Dist2(pos, target.worldPos)
    ensures ReachedTarget(pos, target) <==> d < 0.3
  {
    if d >= 0.3 {
      assert d * d >= 0.3 * d >= 0.09;
    } else {
      assert d * d <= 0.3 * d < 0.09;
    }
  }

  // ---------------------------------------------------------------------------------
  // Line of sight

  /** The sight rule: the two tiles share a column or a row and every tile strictly
      between them is open. */
  predicate LineOfSight(g: Layout, a: Tile, b: Tile)
  {
    if a.x == b.x then
      forall z :: Min(a.z, b.z) < z < Max(a.z, b.z) ==> IsOpen(g, Tile(a.x, z))
    else if a.z == b.z then
      forall x :: Min(a.x, b.x) < x < Max(a.x, b.x) ==> IsOpen(g, Tile(x, a.z))
    else
      false
  }

  /** `canSeePlayer(enemyTile, playerTile)`: the endpoints are sorted and the cells
      strictly between them scanned in order; the first cell that is not a path answers
      false. */
  method CanSeePlayer(g: Layout, enemyTile: Tile, playerTile: Tile) returns (r: bool)
    ensures r == LineOfSight(g, enemyTile, playerTile)
  {
    if enemyTile.x == playerTile.x {
      var x := enemyTile.x;
      var z1, z2 := Min(enemyTile.z, playerTile.z), Max(enemyTile.z, playerTile.z);
      var z := z1 + 1;
      while z < z2
        invariant z1 + 1 <= z <= Max(z1 + 1, z2)
        invariant forall w :: z1 < w < z ==> IsOpen(g, Tile(x, w))
      {
        if !IsOpen(g, Tile(x, z)) {
          return false;
        }
        z := z + 1;
      }
      return true;
    }
    if enemyTile.z == playerTile.z {
      var z := enemyTile.z;
      var x1, x2 := Min(enemyTile.x, playerTile.x), Max(enemyTile.x, playerTile.x);
      var x := x1 + 1;
      while x < x2
        invariant x1 + 1 <= x <= Max(x1 + 1, x2)
        invariant forall w :: x1 < w < x ==> IsOpen(g, Tile(w, z))
      {
        if !IsOpen(g, Tile(x, z)) {
          return false;
        }
        x := x + 1;
      }
      return true;
    }
    return false;
  }

  /** Sight does not depend on which end looks. */
  lemma SightSymmetric(g: Layout, a: Tile, b: Tile)
    ensures LineOfSight(g, a, b) == LineOfSight(g, b, a)
  {
  }

  /** Tiles that share neither a column nor a row never see each other. */
  lemma NoSightOffAxis(g: Layout, a: Tile, b: Tile)
    requires a.x != b.x && a.z != b.z
    ensures !LineOfSight(g, a, b)
  {
  }

  /** A tile sees itself and its four neighbours, walls or not: nothing lies between. */
  lemma NeighboursSee(g: Layout, a: Tile, b: Tile)
    requires a == b || Adjacent(a, b)
    ensures LineOfSight(g, a, b)
  {
  }

  /** A closed cell strictly between two tiles of a column or a row blocks the sight. */
  lemma WallBlocksSight(g: Layout, a: Tile, b: Tile, w: Tile)
    requires (a.x == b.x == w.x && Min(a.z, b.z) < w.z < Max(a.z, b.z)) ||
             (a.z == b.z == w.z && a.x != b.x && Min(a.x, b.x) < w.x < Max(a.x, b.x))
    requires !IsOpen(g, w)
    ensures !LineOfSight(g, a, b)
  {
  }

  // ---------------------------------------------------------------------------------
  // Patrol target choice

  /** A step to a 4-neighbour. */
  datatype Step = Step(dx: int, dz: int)

  /** The four neighbour steps, in the order they are listed before shuffling. */
  const Neighbours: seq<Step> := [Step(0, -1), Step(1, 0), Step(0, 1), Step(-1, 0)]

  /** A shuffled order of the four neighbour steps. */
  predicate IsNeighbourOrder(order: seq<Step>)
  {
    multiset(order) == multiset(Neighbours)
  }

  function StepTo(t: Tile, s: Step): Tile { Tile(t.x + s.dx, t.z + s.dz) }

  /** The tile is a path of the layout and the entity box at its centre (ground height)
      touches no wall box. */
  predicate Qualifies(g: Layout, boxes: seq<Box>, t: Tile, offsetX: real, offsetZ: real, wallSize: real)
  {
    IsOpen(g, t) && !HitsAny(boxes, EntityBox(TileWorld(t, offsetX, offsetZ, wallSize)))
  }

  /** The target of the first step of `order`, from `from`, that qualifies; None when
      none does. */
  function FirstQualifying(g: Layout, boxes: seq<Box>, from: Tile, order: seq<Step>,
                           offsetX: real, offsetZ: real, wallSize: real): Option<Target>
    decreases |order|
  {
    if order == [] then None
    else
      var t := StepTo(from, order[0]);
      if Qualifies(g, boxes, t, offsetX, offsetZ, wallSize) then
        Some(Target(t, TileWorld(t, offsetX, offsetZ, wallSize)))
      else FirstQualifying(g, boxes, from, order[1..], offsetX, offsetZ, wallSize)
  }

  /** What the choice yields: the target of the first step of `order` that qualifies,
      carrying its own world position (every earlier step fails), and None exactly when
      no step qualifies. */
  lemma {:induction false} FirstQualifyingSpec(g: Layout, boxes: seq<Box>, from: Tile, order: seq<Step>,
                                               offsetX: real, offsetZ: real, wallSize: real)
    ensures var r := FirstQualifying(g, boxes, from, order, offsetX, offsetZ, wallSize);
            (r.None? <==> forall s :: s in order ==> !Qualifies(g, boxes, StepTo(from, s), offsetX, offsetZ, wallSize)) &&
            (r.Some? ==> (exists s :: s in order && r.value.tile == StepTo(from, s)) &&
                         (exists i :: 0 <= i < |order| && r.value.tile == StepTo(from, order[i]) &&
                            forall j :: 0 <= j < i ==> !Qualifies(g, boxes, StepTo(from, order[j]), offsetX, offsetZ, wallSize)) &&
                         Qualifies(g, boxes, r.value.tile, offsetX, offsetZ, wallSize) &&
                         r.value.worldPos == TileWorld(r.value.tile, offsetX, offsetZ, wallSize))
    decreases |order|
  {
    if order != [] {
      FirstQualifyingSpec(g, boxes, from, order[1..], offsetX, offsetZ, wallSize);
      assert forall s :: s in order <==> s == order[0] || s in order[1..];
      var r := FirstQualifying(g, boxes, from, order, offsetX, offsetZ, wallSize);
      if r.Some? && !Qualifies(g, boxes, StepTo(from, order[0]), offsetX, offsetZ, wallSize) {
        var k :| 0 <= k < |order[1..]| && r.value.tile == StepTo(from, order[1..][k]) &&
                 forall j :: 0 <= j < k ==> !Qualifies(g, boxes, StepTo(from, order[1..][j]), offsetX, offsetZ, wallSize);
        assert forall j :: 0 <= j < k + 1 ==> !Qualifies(g, boxes, StepTo(from, order[j]), offsetX, offsetZ, wallSize) by {
          forall j | 0 <= j < k + 1 ensures !Qualifies(g, boxes, StepTo(from, order[j]), offsetX, offsetZ, wallSize) {
            if j > 0 { assert order[j] == order[1..][j - 1]; }
          }
        }
        assert r.value.tile == StepTo(from, order[k + 1]);
      } else if r.Some? {
        assert r.value.tile == StepTo(from, order[0]);
      }
    }
  }

  /** With a shuffled order of the four steps the chosen target is a 4-neighbour of the
      enemy's tile, and there is none exactly when no 4-neighbour qualifies. */
  lemma ChosenIsNeighbour(g: Layout, boxes: seq<Box>, from: Tile, order: seq<Step>,
                          offsetX: real, offsetZ: real, wallSize: real)
    requires IsNeighbourOrder(order)
    ensures var r := FirstQualifying(g, boxes, from, order, offsetX, offsetZ, wallSize);
            (r.None? <==> forall t :: Adjacent(from, t) ==> !Qualifies(g, boxes, t, offsetX, offsetZ, wallSize)) &&
            (r.Some? ==> Adjacent(from, r.value.tile) && IsOpen(g, r.value.tile))
  {
    FirstQualifyingSpec(g, boxes, from, order, offsetX, offsetZ, wallSize);
    forall s ensures s in order <==> s in Neighbours {
      assert s in order <==> s in multiset(order);
      assert s in Neighbours <==> s in multiset(Neighbours);
    }
    forall t | Adjacent(from, t) ensures exists s :: s in order && t == StepTo(from, s) {
      var s := Step(t.x - from.x, t.z - from.z);
      assert s in Neighbours;
    }
  }

  /** The `for … of directions` loop of `updateEnemy`: the first qualifying neighbour,
      or None when the loop runs out without a `break`. */
  method PickTarget(g: Layout, boxes: seq<Box>, from: Tile, order: seq<Step>,
                    offsetX: real, offsetZ: real, wallSize: real) returns (r: Option<Target>)
    ensures r == FirstQualifying(g, boxes, from, order, offsetX, offsetZ, wallSize)
  {
    var i := 0;
    while i < |order|
      invariant 0 <= i <= |order|
      invariant FirstQualifying(g, boxes, from, order, offsetX, offsetZ, wallSize)
             == FirstQualifying(g, boxes, from, order[i..], offsetX, offsetZ, wallSize)
    {
      var t := StepTo(from, order[i]);
      assert order[i..][1..] == order[i + 1..];
      if Qualifies(g, boxes, t, offsetX, offsetZ, wallSize) {
        return Some(Target(t, TileWorld(t, offsetX, offsetZ, wallSize)));
      }
      i := i + 1;
    }
    return None;
  }

  // ---------------------------------------------------------------------------------
  // The update of one frame

  datatype EnemyState = Walk | Chase

  /** The per-frame speed of each mode. */
  function SpeedOf(s: EnemyState): (r: real)
    ensures r > 0.0
  {
    if s == Walk then 0.02 else 0.06
  }

  /** What `loadEnemy` records: the layout and where its tiles sit in the world. */
  datatype Level = Level(layout: Layout, offsetX: real, offsetZ: real, wallSize: real)

  /** The state one frame reads and writes. */
  datatype Agent = Agent(position: Vec3, state: EnemyState, target: Option<Target>)

  /** The mode after the sight check: WALK turns into CHASE when the player is seen;
      CHASE stays. */
  function NextState(s: EnemyState, sees: bool): EnemyState
  {
    if s == Walk && sees then Chase else s
  }

  /** The target kept for this frame's walk step: a new choice when there is no target
      or it has been reached, the old one when the choice finds nothing. */
  function Retarget(a: Agent, lv: Level, boxes: seq<Box>, order: seq<Step>): Option<Target>
    requires lv.wallSize > 0.0
  {
    if a.target.None? || ReachedTarget(a.position, a.target.value) then
      var choice := FirstQualifying(lv.layout, boxes, WorldToTile(a.position, lv.offsetX, lv.offsetZ, lv.wallSize),
                                    order, lv.offsetX, lv.offsetZ, lv.wallSize);
      if choice.Some? then choice else a.target
    else a.target
  }

  /** The position `speed` along the (normalised) direction `dir` from `pos`. */
  function TryPos(pos: Vec3, dir: Vec3, speed: real): Vec3
  {
    Add(pos, Scale(dir, speed))
  }

  /** The flat direction from the enemy to the player, before normalisation. */
  function ChaseHeading(pos: Vec3, playerPos: Vec3): Vec3
  {
    Vec3(playerPos.x - pos.x, 0.0, playerPos.z - pos.z)
  }

  /** One frame of `updateEnemy` on a loaded enemy, as a function of the state before:
      the enemy is in CHASE afterwards exactly when it was already or its tile sees the
      player's, and it only ever moves to a place where its box touches no wall. */
  function UpdateAgent(a: Agent, lv: Level, playerPos: Vec3, boxes: seq<Box>, order: seq<Step>,
                       normalize: Vec3 -> Vec3): (r: Agent)
    requires lv.wallSize > 0.0
    ensures r.state == Chase <==>
              a.state == Chase ||
              LineOfSight(lv.layout, WorldToTile(a.position, lv.offsetX, lv.offsetZ, lv.wallSize),
                          WorldToTile(playerPos, lv.offsetX, lv.offsetZ, lv.wallSize))
    ensures r.position == a.position || Clear(boxes, r.position)
  {
    var sees := LineOfSight(lv.layout, WorldToTile(a.position, lv.offsetX, lv.offsetZ, lv.wallSize),
                            WorldToTile(playerPos, lv.offsetX, lv.offsetZ, lv.wallSize));
    var state := NextState(a.state, sees);
    var speed := SpeedOf(state);
    if state == Chase then
      var tryPos := TryPos(a.position, normalize(ChaseHeading(a.position, playerPos)), speed);
      if !HitsAny(boxes, EntityBox(tryPos)) then a.(position := tryPos, state := state)
      else a.(state := state)
    else
      var target := Retarget(a, lv, boxes, order);
      if target.None? then a.(target := target)
      else
        var tryPos := TryPos(a.position, normalize(Sub(target.value.worldPos, a.position)), speed);
        if !HitsAny(boxes, EntityBox(tryPos)) then a.(position := tryPos, target := target)
        else a.(target := None)
  }

  /** CHASE is never left, and WALK turns into CHASE exactly when the enemy's tile sees
      the player's tile. */
  lemma ModeTransitions(a: Agent, lv: Level, playerPos: Vec3, boxes: seq<Box>, order: seq<Step>,
                        normalize: Vec3 -> Vec3)
    requires lv.wallSize > 0.0
    ensures a.state == Chase ==> UpdateAgent(a, lv, playerPos, boxes, order, normalize).state == Chase
    ensures a.state == Walk ==>
              (UpdateAgent(a, lv, playerPos, boxes, order, normalize).state == Chase <==>
               LineOfSight(lv.layout, WorldToTile(a.position, lv.offsetX, lv.offsetZ, lv.wallSize),
                           WorldToTile(playerPos, lv.offsetX, lv.offsetZ, lv.wallSize)))
  {
  }

  /** A blocked CHASE step leaves the enemy where it is: when the box at the chase step
      touches a wall the position is unchanged, and otherwise the enemy moves to that
      step. The target is kept either way. */
  lemma ChaseStep(a: Agent, lv: Level, playerPos: Vec3, boxes: seq<Box>, order: seq<Step>,
                  normalize: Vec3 -> Vec3)
    requires lv.wallSize > 0.0 && a.state == Chase
    ensures var b := UpdateAgent(a, lv, playerPos, boxes, order, normalize);
            var tryPos := TryPos(a.position, normalize(ChaseHeading(a.position, playerPos)), SpeedOf(Chase));
            b.target == a.target &&
            (HitsAny(boxes, EntityBox(tryPos)) ==> b.position == a.position) &&
            (!HitsAny(boxes, EntityBox(tryPos)) ==> b.position == tryPos)
  {
  }

  /** A frame that stays in WALK either moves `SpeedOf(Walk)` towards its target, drops
      the target and stays put when that step is blocked, or stays put when there is no
      target at all. A new target is only ever a qualifying 4-neighbour of the enemy's
      tile. */
  lemma WalkStep(a: Agent, lv: Level, playerPos: Vec3, boxes: seq<Box>, order: seq<Step>,
                 normalize: Vec3 -> Vec3)
    requires lv.wallSize > 0.0 && IsNeighbourOrder(order)
    requires UpdateAgent(a, lv, playerPos, boxes, order, normalize).state == Walk
    ensures var b := UpdateAgent(a, lv, playerPos, boxes, order, normalize);
            var target := Retarget(a, lv, boxes, order);
            (target.None? ==> b.position == a.position && b.target.None?) &&
            (target.Some? ==>
               var tryPos := TryPos(a.position, normalize(Sub(target.value.worldPos, a.position)), SpeedOf(Walk));
               (HitsAny(boxes, EntityBox(tryPos)) ==> b.position == a.position && b.target.None?) &&
               (!HitsAny(boxes, EntityBox(tryPos)) ==> b.position == tryPos && b.target == target)) &&
            (target.Some? && target != a.target ==>
               Adjacent(WorldToTile(a.position, lv.offsetX, lv.offsetZ, lv.wallSize), target.value.tile) &&
               Qualifies(lv.layout, boxes, target.value.tile, lv.offsetX, lv.offsetZ, lv.wallSize))
  {
    var from := WorldToTile(a.position, lv.offsetX, lv.offsetZ, lv.wallSize);
    FirstQualifyingSpec(lv.layout, boxes, from, order, lv.offsetX, lv.offsetZ, lv.wallSize);
    ChosenIsNeighbour(lv.layout, boxes, from, order, lv.offsetX, lv.offsetZ, lv.wallSize);
  }

  /** When the enemy needs a target and no neighbour qualifies, the old target (reached,
      or none) is kept. */
  lemma NoChoiceKeepsTarget(a: Agent, lv: Level, boxes: seq<Box>, order: seq<Step>)
    requires lv.wallSize > 0.0 && IsNeighbourOrder(order)
    requires a.target.None? || ReachedTarget(a.position, a.target.value)
    requires forall t :: Adjacent(WorldToTile(a.position, lv.offsetX, lv.offsetZ, lv.wallSize), t) ==>
               !Qualifies(lv.layout, boxes, t, lv.offsetX, lv.offsetZ, lv.wallSize)
    ensures Retarget(a, lv, boxes, order) == a.target
  {
    ChosenIsNeighbour(lv.layout, boxes, WorldToTile(a.position, lv.offsetX, lv.offsetZ, lv.wallSize),
                      order, lv.offsetX, lv.offsetZ, lv.wallSize);
  }

  /** Wherever a frame moves the enemy, its box there touches no wall box. */
  lemma MovesStayClear(a: Agent, lv: Level, playerPos: Vec3, boxes: seq<Box>, order: seq<Step>,
                       normalize: Vec3 -> Vec3)
    requires lv.wallSize > 0.0
    ensures var b := UpdateAgent(a, lv, playerPos, boxes, order, normalize);
            b.position != a.position ==> Clear(boxes, b.position)
  {
  }

  // ---------------------------------------------------------------------------------
  // The module state of js/enemy.js

  /** The module-level variables of js/enemy.js. `configured` says `loadEnemy` has run,
      `loaded` that the walking model has arrived, which is when the enemy exists. */
  class EnemyAgent {
    var layout: Layout
    var offsetX: real
    var offsetZ: real
    var wallSize: real
    var spawn: Vec3
    var configured: bool
    var loaded: bool
    var position: Vec3
    var state: EnemyState
    var targetTile: Option<Target>

    ghost predicate Valid()
      reads this
    {
      (configured ==> wallSize > 0.0) && (loaded ==> configured)
    }

    function CurrentLevel(): Level
      reads this
    {
      Level(layout, offsetX, offsetZ, wallSize)
    }

    function Snapshot(): Agent
      reads this
    {
      Agent(position, state, targetTile)
    }

    /** The module as imported: WALK, no target, no enemy yet. */
    constructor ()
      ensures Valid() && !configured && !loaded
      ensures state == Walk && targetTile.None?
    {
      layout, offsetX, offsetZ, wallSize := [], 0.0, 0.0, 0.0;
      spawn, position := Vec3(0.0, 0.0, 0.0), Vec3(0.0, 0.0, 0.0);
      configured, loaded := false, false;
      state, targetTile := Walk, None;
    }

    /** `getEnemyState()`. */
    function GetEnemyState(): EnemyState
      reads this
    {
      state
    }

    /** `loadEnemy(scene, maze, offsetX, offsetZ, wallSize)`: records the level and the
        spawn point, the centre of tile (columns - 2, rows - 2) at ground height; the
        enemy itself appears when the model has loaded. */
    method LoadEnemy(maze: Layout, offX: real, offZ: real, ws: real)
      requires |maze| > 0 && ws > 0.0
      modifies this`layout, this`offsetX, this`offsetZ, this`wallSize, this`spawn, this`configured
      ensures Valid() && configured && loaded == old(loaded)
      ensures CurrentLevel() == Level(maze, offX, offZ, ws)
      ensures spawn == TileWorld(Tile(|maze[0]| - 2, |maze| - 2), offX, offZ, ws)
      ensures WorldToTile(spawn, offX, offZ, ws) == Tile(|maze[0]| - 2, |maze| - 2)
      ensures Snapshot() == old(Snapshot())
    {
      layout, offsetX, offsetZ, wallSize := maze, offX, offZ, ws;
      var tileX := |maze[0]| - 2;
      var tileZ := |maze| - 2;
      var posX := tileX as real * ws + offX;
      var posZ := tileZ as real * ws + offZ;
      spawn := Vec3(posX, 0.0, posZ);
      configured := true;
      TileRoundTrip(Tile(tileX, tileZ), 0.0, offX, offZ, ws);
    }

    /** The loader's callback: the enemy now exists, at the spawn point. */
    method ModelLoaded()
      requires Valid() && configured
      modifies this`loaded, this`position
      ensures Valid() && loaded
      ensures Snapshot() == old(Snapshot()).(position := old(spawn))
      ensures CurrentLevel() == old(CurrentLevel()) && spawn == old(spawn) && configured
    {
      loaded := true;
      position := spawn;
    }

    /** `updateEnemy(player, scene)`: before the model has loaded nothing happens;
        afterwards one frame of `UpdateAgent`. */
    method UpdateEnemy(playerPos: Vec3, wallBoxes: seq<Box>, order: seq<Step>, normalize: Vec3 -> Vec3)
      requires Valid()
      modifies this`position, this`state, this`targetTile
      ensures Valid() && CurrentLevel() == old(CurrentLevel()) && loaded == old(loaded)
      ensures spawn == old(spawn) && configured == old(configured)
      ensures old(GetEnemyState()) == Chase ==> GetEnemyState() == Chase
      ensures !loaded ==> Snapshot() == old(Snapshot())
      ensures loaded ==> Snapshot() == UpdateAgent(old(Snapshot()), CurrentLevel(), playerPos, wallBoxes, order, normalize)
    {
      if !loaded {
        return;
      }
      var playerTile := WorldToTile(playerPos, offsetX, offsetZ, wallSize);
      var enemyTile := WorldToTile(position, offsetX, offsetZ, wallSize);
      if state == Walk {
        var sees := CanSeePlayer(layout, enemyTile, playerTile);
        if sees {
          state := Chase;
        }
      }
      var speed := if state == Walk then 0.02 else 0.06;
      if state == Chase {
        var dir := normalize(ChaseHeading(position, playerPos));
        var tryPos := Add(position, Scale(dir, speed));
        if !HitsAny(wallBoxes, EntityBox(tryPos)) {
          position := tryPos;
        }
        return;
      }
      if targetTile.None? || ReachedTarget(position, targetTile.value) {
        var choice := PickTarget(layout, wallBoxes, enemyTile, order, offsetX, offsetZ, wallSize);
        if choice.Some? {
          targetTile := choice;
        }
      }
      if targetTile.Some? {
        var moveDir := normalize(Sub(targetTile.value.worldPos, position));
        var tryPos := Add(position, Scale(moveDir, speed));
        if !HitsAny(wallBoxes, EntityBox(tryPos)) {
          position := tryPos;
        } else {
          targetTile := None;
        }
      }
    }
  }
}
