/** Axis-separated collision resolution, the same block in js/player.js
    `updatePlayerPosition` and in `animate` of main.js: the X and the Z part of a move
    are each kept or dropped according to whether the entity's 1 x 2 x 1 box, moved
    along that axis alone from the current position, touches a wall box. */
module Collision {
  import opened Geometry

  /** `boxes.some(box => candidate.intersectsBox(box))`. */
  function HitsAny(boxes: seq<Box>, candidate: Box): (r: bool)
    ensures r <==> exists i :: 0 <= i < |boxes| && Intersects(candidate, boxes[i])
    decreases |boxes|
  {
    if boxes == [] then false
    else if Intersects(candidate, boxes[0]) then
      assert Intersects(candidate, boxes[0]);
      true
    else
      var r := HitsAny(boxes[1..], candidate);
      assert forall i :: 1 <= i < |boxes| ==> boxes[i] == boxes[1..][i - 1];
      r
  }

  /** The box tested for the X part of a move: shifted along X only. */
  function XCandidate(pos: Vec3, delta: Vec3): Box
  {
    EntityBox(Vec3(pos.x + delta.x, pos.y, pos.z))
  }

  /** The box tested for the Z part of a move: shifted along Z only. */
  function ZCandidate(pos: Vec3, delta: Vec3): Box
  {
    EntityBox(Vec3(pos.x, pos.y, pos.z + delta.z))
  }

  /** The position after one resolved move (the y part of the delta is never applied). */
  function Resolve(pos: Vec3, delta: Vec3, boxes: seq<Box>): Vec3
  {
    Vec3(if HitsAny(boxes, XCandidate(pos, delta)) then pos.x else pos.x + delta.x,
         pos.y,
         if HitsAny(boxes, ZCandidate(pos, delta)) then pos.z else pos.z + delta.z)
  }

  /** The collision block itself: each axis of the move is tested from the current
      position with the box shifted along that axis alone, and applied when the shifted
      box touches no wall. */
  method ResolveMove(pos: Vec3, delta: Vec3, boxes: seq<Box>) returns (next: Vec3)
    ensures next == Resolve(pos, delta, boxes)
  {
    next := pos;
    var xBlocked := HitsAny(boxes, EntityBox(Vec3(pos.x + delta.x, pos.y, pos.z)));
    var zBlocked := HitsAny(boxes, EntityBox(Vec3(pos.x, pos.y, pos.z + delta.z)));
    if !xBlocked { next := next.(x := next.x + delta.x); }
    if !zBlocked { next := next.(z := next.z + delta.z); }
  }

  /** The X part of the move is applied exactly when no wall box meets the X-only
      candidate, the Z part exactly when none meets the Z-only candidate, both tested
      from the original position; the height never changes. */
  lemma ResolvePerAxis(pos: Vec3, delta: Vec3, boxes: seq<Box>)
    ensures Resolve(pos, delta, boxes).y == pos.y
    ensures (forall i :: 0 <= i < |boxes| ==> !Intersects(XCandidate(pos, delta), boxes[i]))
              ==> Resolve(pos, delta, boxes).x == pos.x + delta.x
    ensures (exists i :: 0 <= i < |boxes| && Intersects(XCandidate(pos, delta), boxes[i]))
              ==> Resolve(pos, delta, boxes).x == pos.x
    ensures (forall i :: 0 <= i < |boxes| ==> !Intersects(ZCandidate(pos, delta), boxes[i]))
              ==> Resolve(pos, delta, boxes).z == pos.z + delta.z
    ensures (exists i :: 0 <= i < |boxes| && Intersects(ZCandidate(pos, delta), boxes[i]))
              ==> Resolve(pos, delta, boxes).z == pos.z
  {
  }

  /** With neither axis blocked the whole delta (without its y part) is applied; with
      both blocked the position is unchanged. */
  lemma ResolveFreeOrStuck(pos: Vec3, delta: Vec3, boxes: seq<Box>)
    ensures (!HitsAny(boxes, XCandidate(pos, delta)) && !HitsAny(boxes, ZCandidate(pos, delta)))
              ==> Resolve(pos, delta, boxes) == Add(pos, Vec3(delta.x, 0.0, delta.z))
    ensures (HitsAny(boxes, XCandidate(pos, delta)) && HitsAny(boxes, ZCandidate(pos, delta)))
              ==> Resolve(pos, delta, boxes) == pos
  {
  }

  /** With no wall boxes at all every move is applied in full, except its y part. */
  lemma ResolveWithoutWalls(pos: Vec3, delta: Vec3)
    ensures Resolve(pos, delta, []) == Vec3(pos.x + delta.x, pos.y, pos.z + delta.z)
  {
  }

  /** The box of an entity centred at `pos` touches no wall box. */
  predicate Clear(boxes: seq<Box>, pos: Vec3)
  {
    !HitsAny(boxes, EntityBox(pos))
  }

  /** A move along one axis only never ends inside a wall box when it starts clear: the
      candidate that is tested is then the box at the final position. */
  lemma {:induction false} AxisMoveStaysClear(pos: Vec3, delta: Vec3, boxes: seq<Box>)
    requires Clear(boxes, pos)
    requires delta.x == 0.0 || delta.z == 0.0
    ensures Clear(boxes, Resolve(pos, delta, boxes))
  {
    var r := Resolve(pos, delta, boxes);
    if delta.z == 0.0 {
      assert EntityBox(r) == (if HitsAny(boxes, XCandidate(pos, delta)) then EntityBox(pos) else XCandidate(pos, delta));
    } else {
      assert EntityBox(r) == (if HitsAny(boxes, ZCandidate(pos, delta)) then EntityBox(pos) else ZCandidate(pos, delta));
    }
  }

  /** Against a single wall box the test is that box's intersection test. */
  lemma HitsOne(wall: Box, candidate: Box)
    ensures HitsAny([wall], candidate) == Intersects(candidate, wall)
  {
    assert [wall][1..] == [];
  }

  /** An illustration of wall sliding, on one concrete case (the general statements are
      `ResolvePerAxis`, `ResolveFreeOrStuck` and `AxisMoveStaysClear`): a wall directly
      ahead along X (a 2 x 4 x 2 wall box whose near face is 0.1 beyond the entity's)
      stops a diagonal move's X part and lets its Z part through in full. */
  lemma SlideAlongWall()
    ensures var wall := FromCenterAndSize(Vec3(1.6, 1.0, 0.0), Vec3(2.0, 4.0, 2.0));
            var pos := Vec3(0.0, 1.0, 0.0);
            var delta := Vec3(0.2, 0.0, 0.2);
            Resolve(pos, delta, [wall]) == Vec3(0.0, 1.0, 0.2)
  {
    var wall := FromCenterAndSize(Vec3(1.6, 1.0, 0.0), Vec3(2.0, 4.0, 2.0));
    var pos, delta := Vec3(0.0, 1.0, 0.0), Vec3(0.2, 0.0, 0.2);
    assert wall == Box(Vec3(0.6, -1.0, -1.0), Vec3(2.6, 3.0, 1.0));
    assert XCandidate(pos, delta) == Box(Vec3(-0.3, 0.0, -0.5), Vec3(0.7, 2.0, 0.5));
    assert ZCandidate(pos, delta) == Box(Vec3(-0.5, 0.0, -0.3), Vec3(0.5, 2.0, 0.7));
    HitsOne(wall, XCandidate(pos, delta));
    HitsOne(wall, ZCandidate(pos, delta));
  }

  /** An illustration of corner clipping, on one concrete case: each axis alone is clear
      of a wall box that sits diagonally ahead, so both parts of the move are applied, and
      the box at the final position overlaps that wall. Resolution does not keep an entity
      out of walls on diagonal moves. */
  lemma CornerClip()
    ensures var wall := FromCenterAndSize(Vec3(1.6, 1.0, 1.6), Vec3(2.0, 4.0, 2.0));
            var pos := Vec3(0.0, 1.0, 0.0);
            var delta := Vec3(0.2, 0.0, 0.2);
            Clear([wall], pos) &&
            Resolve(pos, delta, [wall]) == Vec3(0.2, 1.0, 0.2) &&
            !Clear([wall], Resolve(pos, delta, [wall]))
  {
    var wall := FromCenterAndSize(Vec3(1.6, 1.0, 1.6), Vec3(2.0, 4.0, 2.0));
    var pos, delta := Vec3(0.0, 1.0, 0.0), Vec3(0.2, 0.0, 0.2);
    assert wall == Box(Vec3(0.6, -1.0, 0.6), Vec3(2.6, 3.0, 2.6));
    assert XCandidate(pos, delta) == Box(Vec3(-0.3, 0.0, -0.5), Vec3(0.7, 2.0, 0.5));
    assert ZCandidate(pos, delta) == Box(Vec3(-0.5, 0.0, -0.3), Vec3(0.5, 2.0, 0.7));
    assert Resolve(pos, delta, [wall]) == Vec3(0.2, 1.0, 0.2);
    HitsOne(wall, EntityBox(pos));
    HitsOne(wall, XCandidate(pos, delta));
    HitsOne(wall, ZCandidate(pos, delta));
    HitsOne(wall, EntityBox(Vec3(0.2, 1.0, 0.2)));
  }
}
