/** The keyboard movement state of js/controls.js: a record of five flags that the key
    handlers set and clear in place. */
module Controls {
  import opened Wrappers

  /** The five flags of `moveState`, as a value. */
  datatype Intent = Intent(forward: bool, backward: bool, left: bool, right: bool, run: bool)

  /** The names of the flags. */
  datatype Field = Forward | Backward | Left | Right | Run

  function Get(i: Intent, f: Field): bool
  {
    match f
    case Forward => i.forward
    case Backward => i.backward
    case Left => i.left
    case Right => i.right
    case Run => i.run
  }

  /** `i` with flag `f` set to `v` and every other flag as it was. */
  function Set(i: Intent, f: Field, v: bool): (r: Intent)
    ensures forall g :: Get(r, g) == if g == f then v else Get(i, g)
  {
    match f
    case Forward => i.(forward := v)
    case Backward => i.(backward := v)
    case Left => i.(left := v)
    case Right => i.(right := v)
    case Run => i.(run := v)
  }

  /** The flag a key code drives: W, S, A, D and the left Shift key; no other code
      has a case in the `switch`. */
  function FieldOf(code: string): Option<Field>
  {
    if code == "KeyW" then Some(Forward)
    else if code == "KeyS" then Some(Backward)
    else if code == "KeyA" then Some(Left)
    else if code == "KeyD" then Some(Right)
    else if code == "ShiftLeft" then Some(Run)
    else None
  }

  /** The effect of one key event: the flag of a known code becomes `pressed`; anything
      else leaves the state as it is. */
  function ApplyKey(i: Intent, code: string, pressed: bool): (r: Intent)
    ensures forall g :: Get(r, g) == if FieldOf(code) == Some(g) then pressed else Get(i, g)
  {
    match FieldOf(code)
    case None => i
    case Some(f) => Set(i, f, pressed)
  }

  /** The codes W, S, A, D and ShiftLeft drive forward, backward, left, right and run. */
  lemma KeyBindings()
    ensures FieldOf("KeyW") == Some(Forward) && FieldOf("KeyS") == Some(Backward)
    ensures FieldOf("KeyA") == Some(Left) && FieldOf("KeyD") == Some(Right)
    ensures FieldOf("ShiftLeft") == Some(Run)
    ensures forall f :: exists code :: FieldOf(code) == Some(f)
  {
    forall f ensures exists code :: FieldOf(code) == Some(f) {
      match f
      case Forward => assert FieldOf("KeyW") == Some(f);
      case Backward => assert FieldOf("KeyS") == Some(f);
      case Left => assert FieldOf("KeyA") == Some(f);
      case Right => assert FieldOf("KeyD") == Some(f);
      case Run => assert FieldOf("ShiftLeft") == Some(f);
    }
  }

  /** A key event changes at most one flag, and a code without a case changes none. */
  lemma AtMostOneFlag(i: Intent, code: string, pressed: bool)
    ensures forall f, g :: f != g && Get(ApplyKey(i, code, pressed), f) != Get(i, f) ==>
              Get(ApplyKey(i, code, pressed), g) == Get(i, g)
    ensures FieldOf(code) == None ==> ApplyKey(i, code, pressed) == i
  {
  }

  /** Delivering the same event twice has the effect of delivering it once. */
  lemma ApplyKeyIdempotent(i: Intent, code: string, pressed: bool)
    ensures ApplyKey(ApplyKey(i, code, pressed), code, pressed) == ApplyKey(i, code, pressed)
  {
    var once := ApplyKey(i, code, pressed);
    var twice := ApplyKey(once, code, pressed);
    assert forall g :: Get(twice, g) == Get(once, g);
    FlagsDetermine(twice, once);
  }

  /** After a key goes down and comes up again its flag is clear, whatever it was before,
      and every other flag is as it was. */
  lemma DownThenUp(i: Intent, code: string)
    ensures forall g :: Get(ApplyKey(ApplyKey(i, code, true), code, false), g)
              == if FieldOf(code) == Some(g) then false else Get(i, g)
  {
  }

  /** Two states with the same flags are the same state. */
  lemma FlagsDetermine(a: Intent, b: Intent)
    requires forall g :: Get(a, g) == Get(b, g)
    ensures a == b
  {
    assert Get(a, Forward) == Get(b, Forward) && Get(a, Backward) == Get(b, Backward);
    assert Get(a, Left) == Get(b, Left) && Get(a, Right) == Get(b, Right) && Get(a, Run) == Get(b, Run);
  }

  /** The shared `moveState` record. */
  class MoveState {
    var forward: bool
    var backward: bool
    var left: bool
    var right: bool
    var run: bool

    /** All flags start clear. */
    constructor ()
      ensures Flags() == Intent(false, false, false, false, false)
    {
      forward, backward, left, right, run := false, false, false, false, false;
    }

    function Flags(): Intent
      reads this
    {
      Intent(forward, backward, left, right, run)
    }

    /** `handleKeyDown(event, moveState)`. */
    method HandleKeyDown(code: string)
      modifies this
      ensures Flags() == ApplyKey(old(Flags()), code, true)
    {
      if code == "KeyW" {
        forward := true;
      } else if code == "KeyS" {
        backward := true;
      } else if code == "KeyA" {
        left := true;
      } else if code == "KeyD" {
        right := true;
      } else if code == "ShiftLeft" {
        run := true;
      }
    }

    /** `handleKeyUp(event, moveState)`. */
    method HandleKeyUp(code: string)
      modifies this
      ensures Flags() == ApplyKey(old(Flags()), code, false)
    {
      if code == "KeyW" {
        forward := false;
      } else if code == "KeyS" {
        backward := false;
      } else if code == "KeyA" {
        left := false;
      } else if code == "KeyD" {
        right := false;
      } else if code == "ShiftLeft" {
        run := false;
      }
    }
  }
}
