/** The player of js/player.js: a box whose position `updatePlayerPosition` moves each
    frame from the movement flags, the camera's facing and the wall boxes. The camera's
    horizontal facing and its sideways vector (three.js `getWorldDirection`,
    `crossVectors` and `normalize`) are inputs. */
module Player {
  import opened Geometry
  import opened Collision
  import opened Controls

  const BaseSpeed: real := 0.05

  /** Running doubles the base speed. */
  function Speed(run: bool): (r: real)
    ensures r == if run then 2.0 * BaseSpeed else BaseSpeed
    ensures r > 0.0
  {
    if run then BaseSpeed * 2.0 else BaseSpeed
  }

  const Zero: Vec3 := Vec3(0.0, 0.0, 0.0)

  function Neg(v: Vec3): Vec3 { Vec3(-v.x, -v.y, -v.z) }

  /** The net move of a pair of opposite keys that move along `v` and against it: `v`
      when only the first is held, its opposite when only the second is, nothing when
      both or neither are. */
  function Net(plus: bool, minus: bool, v: Vec3): Vec3
  {
    if plus && !minus then v else if minus && !plus then Neg(v) else Zero
  }

  /** The move a frame asks for: along the facing for forward/backward and along the
      sideways vector for left/right, each at `speed`. */
  function MoveDelta(forward: bool, backward: bool, left: bool, right: bool,
                     direction: Vec3, sideways: Vec3, speed: real): Vec3
  {
    Add(Net(forward, backward, Scale(direction, speed)), Net(left, right, Scale(sideways, speed)))
  }

  /** Holding both keys of an opposite pair is the same as holding neither. */
  lemma OppositeKeysCancel(forward: bool, backward: bool, left: bool, right: bool, direction: Vec3, sideways: Vec3, speed: real)
    ensures MoveDelta(true, true, left, right, direction, sideways, speed)
         == MoveDelta(false, false, left, right, direction, sideways, speed)
    ensures MoveDelta(forward, backward, true, true, direction, sideways, speed)
         == MoveDelta(forward, backward, false, false, direction, sideways, speed)
  {
  }

  /** Forward alone moves `speed` along the facing, left alone `speed` along the
      sideways vector; with no key held the delta is zero. */
  lemma SingleKeyDelta(direction: Vec3, sideways: Vec3, speed: real)
    ensures MoveDelta(true, false, false, false, direction, sideways, speed) == Scale(direction, speed)
    ensures MoveDelta(false, false, true, false, direction, sideways, speed) == Scale(sideways, speed)
    ensures MoveDelta(false, false, false, false, direction, sideways, speed) == Zero
  {
  }

  lemma ScaleNeg(v: Vec3, s: real)
    ensures Scale(v, -s) == Neg(Scale(v, s))
  {
    assert v.x * -s == -(v.x * s);
    assert v.y * -s == -(v.y * s);
    assert v.z * -s == -(v.z * s);
  }

  /** `delta.add(w)` when `held`, `delta` otherwise. */
  function AddIf(held: bool, delta: Vec3, w: Vec3): Vec3
  {
    if held then Add(delta, w) else delta
  }

  /** Adding the move of a key and then the opposite move of the opposite key adds the
      pair's net move. */
  lemma PairNet(plus: bool, minus: bool, base: Vec3, a: Vec3)
    ensures AddIf(minus, AddIf(plus, base, a), Neg(a)) == Add(base, Net(plus, minus, a))
  {
  }

  /** Adding the moves key by key, in the order forward, backward, left, right (a
      backward or right key adds the opposite of the forward or left move), yields the
      net move of both pairs. */
  lemma StepwiseNet(forward: bool, backward: bool, left: bool, right: bool, a: Vec3, b: Vec3)
    ensures AddIf(right, AddIf(left, AddIf(backward, AddIf(forward, Zero, a), Neg(a)), b), Neg(b))
         == Add(Net(forward, backward, a), Net(left, right, b))
  {
    PairNet(forward, backward, Zero, a);
    var f := AddIf(backward, AddIf(forward, Zero, a), Neg(a));
    assert f == Net(forward, backward, a);
    PairNet(left, right, f, b);
  }

  /** The delta summed key by key (`addScaledVector`): a held forward or left key adds
      the facing or sideways vector scaled by `speed`, a held backward or right key the
      same vector scaled by the negated speed. */
  method AccumulateDelta(forward: bool, backward: bool, left: bool, right: bool,
                         direction: Vec3, sideways: Vec3, speed: real) returns (delta: Vec3)
    ensures delta == MoveDelta(forward, backward, left, right, direction, sideways, speed)
  {
    ghost var a, b := Scale(direction, speed), Scale(sideways, speed);
    ScaleNeg(direction, speed);
    ScaleNeg(sideways, speed);
    delta := Zero;
    if forward { delta := Add(delta, Scale(direction, speed)); }
    if backward { delta := Add(delta, Scale(direction, -speed)); }
    if left { delta := Add(delta, Scale(sideways, speed)); }
    if right { delta := Add(delta, Scale(sideways, -speed)); }
    assert delta == AddIf(right, AddIf(left, AddIf(backward, AddIf(forward, Zero, a), Neg(a)), b), Neg(b));
    StepwiseNet(forward, backward, left, right, a, b);
  }

  /** With no key held the player stays exactly where it is, walls or not: the zero
      move is either applied or blocked, and both leave the position unchanged. */
  lemma NoKeysNoMove(pos: Vec3, direction: Vec3, sideways: Vec3, speed: real, boxes: seq<Box>)
    ensures Resolve(pos, MoveDelta(false, false, false, false, direction, sideways, speed), boxes) == pos
  {
    assert MoveDelta(false, false, false, false, direction, sideways, speed) == Zero;
  }

  /** The player mesh; only its position matters here. */
  class PlayerBody {
    var position: Vec3

    /** `createPlayer(scene, x, z)`: the box stands at height 1 over (x, z). */
    constructor (x: real, z: real)
      ensures position == Vec3(x, 1.0, z)
    {
      position := Vec3(x, 1.0, z);
    }

    /** `updatePlayerPosition(player, camera, moveState, wallBoxes)`. With movement
        disabled nothing changes; otherwise the delta built from the held keys is
        resolved against the walls axis by axis. */
    method UpdatePlayerPosition(direction: Vec3, sideways: Vec3, moveState: MoveState, wallBoxes: seq<Box>,
                                disableMovement: bool)
      modifies this
      ensures disableMovement ==> position == old(position)
      ensures !disableMovement ==>
        position == Resolve(old(position),
                            MoveDelta(old(moveState.forward), old(moveState.backward),
                                      old(moveState.left), old(moveState.right),
                                      direction, sideways, Speed(old(moveState.run))),
                            wallBoxes)
    {
      if !disableMovement {
        var speed := if moveState.run then BaseSpeed * 2.0 else BaseSpeed;
        var delta := AccumulateDelta(moveState.forward, moveState.backward, moveState.left, moveState.right,
                                     direction, sideways, speed);
        var next := ResolveMove(position, delta, wallBoxes);
        position := next;
      }
    }
  }
}
