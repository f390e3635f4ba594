/** The glowing dots of js/collectibles.js: `spawnDots` puts one on each of a random
    selection of walkable tiles, `animateDots` bobs them, and `checkDotCollection`
    removes those within reach of the player and reports the win once none is left.
    The random order of the walkable tiles is an input, and so are the sine values of
    the bobbing. Meshes, point lights and their `visible` flags are not modelled. */
module Collectibles {
  import opened Geometry
  import opened Grid

  /** The `amount` that `spawnDots` uses when none is passed. */
  const DefaultAmount: nat := 20

  /** The height at which a dot is placed. */
  const DotHeight: real := 1.5

  /** A dot: its mesh position and the height it was placed at (`userData.baseY`). */
  datatype Dot = Dot(position: Vec3, baseY: real)

  // ---------------------------------------------------------------------------------
  // Placement

  /** The nested `forEach` that lists the cells equal to 0, row by row. */
  method WalkableTiles(layout: Layout) returns (tiles: seq<Tile>)
    ensures tiles == TilesWith(layout, 0)
  {
    tiles := [];
    var z := 0;
    while z < |layout|
      invariant 0 <= z <= |layout|
      invariant tiles == TilesBefore(layout, 0, z)
    {
      var x := 0;
      assert TilesBefore(layout, 0, z) + RowTiles(layout, 0, z, 0) == TilesBefore(layout, 0, z);
      while x < |layout[z]|
        invariant 0 <= x <= |layout[z]|
        invariant tiles == TilesBefore(layout, 0, z) + RowTiles(layout, 0, z, x)
      {
        if layout[z][x] == 0 {
          tiles := tiles + [Tile(x, z)];
        }
        x := x + 1;
      }
      z := z + 1;
    }
  }

  /** `order` lists each index below `n` exactly once: the outcome of shuffling a list
      of `n` elements. */
  predicate IsIndexOrder(order: seq<int>, n: int)
  {
    |order| == n &&
    (forall i :: 0 <= i < n ==> 0 <= order[i] < n) &&
    (forall i, j :: 0 <= i < j < n ==> order[i] != order[j])
  }

  /** The dot placed on tile `t`: the tile's world centre at height 1.5. */
  function DotOn(t: Tile, wallSize: real, offsetX: real, offsetZ: real): Dot
  {
    Dot(Vec3(TileCenter(t.x, wallSize, offsetX), DotHeight, TileCenter(t.z, wallSize, offsetZ)), DotHeight)
  }

  /** The dots for the first `amount` walkable tiles in shuffled order (all of them when
      there are fewer). */
  function Placed(walkable: seq<Tile>, order: seq<int>, amount: nat,
                  wallSize: real, offsetX: real, offsetZ: real): seq<Dot>
    requires IsIndexOrder(order, |walkable|)
  {
    seq(Min(amount, |walkable|), i requires 0 <= i < Min(amount, |walkable|) =>
          DotOn(walkable[order[i]], wallSize, offsetX, offsetZ))
  }

  /** Placement in terms of the layout: there are min(amount, walkable tiles) dots, and
      dot `i` stands at height 1.5 over the centre of the open tile `order[i]` picks,
      no two dots picking the same tile. */
  lemma PlacedOnOpenTiles(layout: Layout, order: seq<int>, amount: nat,
                          wallSize: real, offsetX: real, offsetZ: real)
    requires IsIndexOrder(order, |TilesWith(layout, 0)|)
    ensures var walkable := TilesWith(layout, 0);
            var dots := Placed(walkable, order, amount, wallSize, offsetX, offsetZ);
            |dots| == Min(amount, |walkable|) &&
            (forall i :: 0 <= i < |dots| ==>
               IsOpen(layout, walkable[order[i]]) && dots[i] == DotOn(walkable[order[i]], wallSize, offsetX, offsetZ)) &&
            (forall i, j :: 0 <= i < j < |dots| ==> walkable[order[i]] != walkable[order[j]])
  {
    var walkable := TilesWith(layout, 0);
    TilesWithExactly(layout, 0);
    assert forall i :: 0 <= i < |walkable| ==> walkable[i] in walkable;
  }

  /** With a positive wall size no two dots stand at the same place. */
  lemma PlacedApart(walkable: seq<Tile>, order: seq<int>, amount: nat,
                    wallSize: real, offsetX: real, offsetZ: real)
    requires IsIndexOrder(order, |walkable|)
    requires forall i, j :: 0 <= i < j < |walkable| ==> walkable[i] != walkable[j]
    requires wallSize > 0.0
    ensures var dots := Placed(walkable, order, amount, wallSize, offsetX, offsetZ);
            forall i, j :: 0 <= i < j < |dots| ==> dots[i].position != dots[j].position
  {
    var dots := Placed(walkable, order, amount, wallSize, offsetX, offsetZ);
    forall i, j | 0 <= i < j < |dots| ensures dots[i].position != dots[j].position {
      var a, b := walkable[order[i]], walkable[order[j]];
      assert a != b;
      if a.x != b.x {
        CentresApart(a.x, b.x, wallSize, offsetX);
      } else {
        CentresApart(a.z, b.z, wallSize, offsetZ);
      }
    }
  }

  /** Different tile indices have different centres along an axis. */
  lemma CentresApart(a: int, b: int, wallSize: real, offset: real)
    requires a != b && wallSize > 0.0
    ensures TileCenter(a, wallSize, offset) != TileCenter(b, wallSize, offset)
  {
    if a < b {
      assert (b - a) as real * wallSize >= wallSize;
    } else {
      assert (a - b) as real * wallSize >= wallSize;
    }
  }

  // ---------------------------------------------------------------------------------
  // Pickup

  /** A dot within distance 2 of the player (compared squared) is collected. */
  predicate Collected(d: Dot, playerPos: Vec3)
  {
    Dist2(d.position, playerPos) < 4.0
  }

  /** `dots.filter(…)`: the dots that are not collected, in their order. */
  function Remaining(dots: seq<Dot>, playerPos: Vec3): (r: seq<Dot>)
    ensures |r| <= |dots|
    ensures forall d :: d in r <==> d in dots && !Collected(d, playerPos)
    decreases |dots|
  {
    if dots == [] then []
    else
      var rest := Remaining(dots[1..], playerPos);
      assert forall d :: d in dots <==> d == dots[0] || d in dots[1..];
      if Collected(dots[0], playerPos) then rest else [dots[0]] + rest
  }

  /** The filter keeps the order: filtering a concatenation is concatenating the
      filtered parts. */
  lemma {:induction false} RemainingAppend(a: seq<Dot>, b: seq<Dot>, playerPos: Vec3)
    ensures Remaining(a + b, playerPos) == Remaining(a, playerPos) + Remaining(b, playerPos)
    decreases |a|
  {
    if a != [] {
      assert (a + b)[1..] == a[1..] + b;
      RemainingAppend(a[1..], b, playerPos);
    } else {
      assert a + b == b;
    }
  }

  /** A second pickup from the same place removes nothing more. */
  lemma {:induction false} RemainingIdempotent(dots: seq<Dot>, playerPos: Vec3)
    ensures Remaining(Remaining(dots, playerPos), playerPos) == Remaining(dots, playerPos)
    decreases |dots|
  {
    if dots != [] {
      RemainingIdempotent(dots[1..], playerPos);
      var rest := Remaining(dots[1..], playerPos);
      if !Collected(dots[0], playerPos) {
        assert ([dots[0]] + rest)[1..] == rest;
      }
    }
  }

  /** With `dist` the (non-negative) distance, a dot is collected exactly when it is
      nearer than 2. */
  lemma CollectedIsNear(d: Dot, playerPos: Vec3, dist: real)
    requires dist >= 0.0 && dist * dist == Dist2(d.position, playerPos)
    ensures Collected(d, playerPos) <==> dist < 2.0
  {
    if dist >= 2.0 {
      assert dist * dist >= 2.0 * dist >= 4.0;
    } else {
      assert dist * dist <= 2.0 * dist < 4.0;
    }
  }

  // ---------------------------------------------------------------------------------
  // The module state

  /** The module-level `dots` list. */
  class DotField {
    var dots: seq<Dot>

    constructor ()
      ensures dots == []
    {
      dots := [];
    }

    /** `spawnDots(scene, mazeLayout, wallSize, offsetX, offsetZ, amount)`. `order` is the
        outcome of the random sort of the walkable tiles. */
    method SpawnDots(mazeLayout: Layout, wallSize: real, offsetX: real, offsetZ: real, amount: nat,
                     order: seq<int>)
      requires IsIndexOrder(order, |TilesWith(mazeLayout, 0)|)
      modifies this
      ensures dots == Placed(TilesWith(mazeLayout, 0), order, amount, wallSize, offsetX, offsetZ)
    {
      var walkableTiles := WalkableTiles(mazeLayout);
      var shuffled := seq(|walkableTiles|, i requires 0 <= i < |walkableTiles| => walkableTiles[order[i]]);
      var chosen := shuffled[..Min(amount, |shuffled|)];
      dots := seq(|chosen|, i requires 0 <= i < |chosen| => DotOn(chosen[i], wallSize, offsetX, offsetZ));
    }

    /** `animateDots(deltaTime)`: each dot's height becomes 0.3 below its base height plus
        0.2 times a sine value, given here in `sines`, one per dot. */
    method AnimateDots(sines: seq<real>)
      requires |sines| == |dots|
      requires forall i :: 0 <= i < |sines| ==> -1.0 <= sines[i] <= 1.0
      modifies this
      ensures |dots| == |old(dots)|
      ensures forall i :: 0 <= i < |dots| ==>
                dots[i].baseY == old(dots[i].baseY) &&
                dots[i].position.x == old(dots[i].position.x) && dots[i].position.z == old(dots[i].position.z) &&
                dots[i].position.y == dots[i].baseY - 0.3 + sines[i] * 0.2 &&
                dots[i].baseY - 0.5 <= dots[i].position.y <= dots[i].baseY - 0.1
    {
      var i := 0;
      while i < |dots|
        invariant 0 <= i <= |dots| == |old(dots)|
        invariant forall j :: i <= j < |dots| ==> dots[j] == old(dots[j])
        invariant forall j :: 0 <= j < i ==>
                    dots[j].baseY == old(dots[j].baseY) &&
                    dots[j].position.x == old(dots[j].position.x) && dots[j].position.z == old(dots[j].position.z) &&
                    dots[j].position.y == dots[j].baseY - 0.3 + sines[j] * 0.2 &&
                    dots[j].baseY - 0.5 <= dots[j].position.y <= dots[j].baseY - 0.1
      {
        var d := dots[i];
        dots := dots[i := d.(position := d.position.(y := d.baseY - 0.3 + sines[i] * 0.2))];
        i := i + 1;
      }
    }

    /** `checkDotCollection(player, scene)`: drops the dots within reach and reports
        whether none is left. */
    method CheckDotCollection(playerPos: Vec3) returns (won: bool)
      modifies this
      ensures dots == Remaining(old(dots), playerPos)
      ensures won <==> dots == []
    {
      dots := Remaining(dots, playerPos);
      won := |dots| == 0;
    }
  }
}
