/**
 * The player character of candy-run: keyboard flags decide a velocity each
 * frame, and the sprite's facing, moving flag and trail emitters follow it.
 */
module Avatar {
  import opened Geometry

  /** Player speed in pixels per second. */
  const SPEED: real := 180.0
  /** The source's approximation of 1 / sqrt(2) for diagonal movement. */
  const DIAGONAL: real := 0.7071

  /** Which of the four direction keys of one key set are held down. */
  datatype Keys = Keys(left: bool, right: bool, up: bool, down: bool)

  /** A direction counts as held when its arrow key or its WASD key is down. */
  predicate LeftHeld(cursors: Keys, wasd: Keys) { cursors.left || wasd.left }
  predicate RightHeld(cursors: Keys, wasd: Keys) { cursors.right || wasd.right }
  predicate UpHeld(cursors: Keys, wasd: Keys) { cursors.up || wasd.up }
  predicate DownHeld(cursors: Keys, wasd: Keys) { cursors.down || wasd.down }

  /**
   * The velocity `update` hands to the physics body. Right wins over left
   * and down over up (the later assignment in the source overwrites the
   * earlier one); each axis is -180, 0 or 180, and both axes are scaled by
   * 0.7071 exactly when both are non-zero.
   */
  function Velocity(cursors: Keys, wasd: Keys): (v: (real, real))
    ensures RightHeld(cursors, wasd) ==> v.0 > 0.0
    ensures LeftHeld(cursors, wasd) && !RightHeld(cursors, wasd) ==> v.0 < 0.0
    ensures !LeftHeld(cursors, wasd) && !RightHeld(cursors, wasd) ==> v.0 == 0.0
    ensures DownHeld(cursors, wasd) ==> v.1 > 0.0
    ensures UpHeld(cursors, wasd) && !DownHeld(cursors, wasd) ==> v.1 < 0.0
    ensures !UpHeld(cursors, wasd) && !DownHeld(cursors, wasd) ==> v.1 == 0.0
    ensures v.0 != 0.0 && v.1 != 0.0 ==>
              v.0 in {-SPEED * DIAGONAL, SPEED * DIAGONAL} && v.1 in {-SPEED * DIAGONAL, SPEED * DIAGONAL}
    ensures v.0 == 0.0 || v.1 == 0.0 ==> v.0 in {-SPEED, 0.0, SPEED} && v.1 in {-SPEED, 0.0, SPEED}
  {
    var vx := if RightHeld(cursors, wasd) then SPEED else if LeftHeld(cursors, wasd) then -SPEED else 0.0;
    var vy := if DownHeld(cursors, wasd) then SPEED else if UpHeld(cursors, wasd) then -SPEED else 0.0;
    if vx != 0.0 && vy != 0.0 then (vx * DIAGONAL, vy * DIAGONAL) else (vx, vy)
  }

  /** Holding both horizontal keys moves right; holding both vertical keys moves down. */
  lemma OverridesWin(cursors: Keys, wasd: Keys)
    requires LeftHeld(cursors, wasd) && RightHeld(cursors, wasd)
    requires UpHeld(cursors, wasd) && DownHeld(cursors, wasd)
    ensures Velocity(cursors, wasd) == (SPEED * DIAGONAL, SPEED * DIAGONAL)
  {
  }

  /** The diagonal speed is within a ten-thousandth of the axis speed. */
  lemma DiagonalSpeed(cursors: Keys, wasd: Keys)
    requires Velocity(cursors, wasd).0 != 0.0 && Velocity(cursors, wasd).1 != 0.0
    ensures var v := Velocity(cursors, wasd);
            0.9999 * SPEED * SPEED <= v.0 * v.0 + v.1 * v.1 <= SPEED * SPEED
  {
    var v := Velocity(cursors, wasd);
    assert v.0 * v.0 == SPEED * DIAGONAL * (SPEED * DIAGONAL);
    assert v.1 * v.1 == SPEED * DIAGONAL * (SPEED * DIAGONAL);
  }

  class Player {
    const tileSize: real
    const speed: real
    /** The sprite's position; the physics engine moves it between frames. */
    var position: Point
    /** The last velocity handed to the physics body. */
    var velocity: (real, real)
    var facingRight: bool
    var isMoving: bool
    /** Whether the star and heart trail emitters are running. */
    var emitting: bool

    constructor (x: real, y: real, tileSize: real)
      ensures this.tileSize == tileSize && speed == SPEED
      ensures position == Point(x, y) && velocity == (0.0, 0.0)
      ensures facingRight && !isMoving && !emitting
    {
      this.tileSize := tileSize;
      speed := SPEED;
      position := Point(x, y);
      velocity := (0.0, 0.0);
      facingRight := true;
      isMoving := false;
      emitting := false;
    }

    /**
     * `update`: set the body velocity from the keys, turn the sprite toward
     * the horizontal direction of travel (keeping it when there is none),
     * and run the emitters exactly while moving.
     */
    method Update(cursors: Keys, wasd: Keys)
      modifies this
      ensures velocity == Velocity(cursors, wasd)
      ensures RightHeld(cursors, wasd) ==> facingRight
      ensures LeftHeld(cursors, wasd) && !RightHeld(cursors, wasd) ==> !facingRight
      ensures !LeftHeld(cursors, wasd) && !RightHeld(cursors, wasd) ==> facingRight == old(facingRight)
      ensures isMoving <==> LeftHeld(cursors, wasd) || RightHeld(cursors, wasd) ||
                            UpHeld(cursors, wasd) || DownHeld(cursors, wasd)
      ensures emitting == isMoving
      ensures position == old(position)
    {
      var v := Velocity(cursors, wasd);
      var (vx, vy) := v;
      velocity := v;
      if vx > 0.0 {
        facingRight := true;
      }
      if vx < 0.0 {
        facingRight := false;
      }
      isMoving := vx != 0.0 || vy != 0.0;
      if isMoving {
        emitting := true;
      } else {
        emitting := false;
      }
    }

    /**
     * `teleportToSafety`: the sprite and its body jump to the given point;
     * resetting an arcade body also discards its velocity.
     */
    method TeleportToSafety(safe: Point)
      modifies this
      ensures position == safe && velocity == (0.0, 0.0)
      ensures facingRight == old(facingRight) && isMoving == old(isMoving) && emitting == old(emitting)
    {
      position := safe;
      velocity := (0.0, 0.0);
    }
  }
}
