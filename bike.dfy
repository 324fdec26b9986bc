/**
 * The soba-delivery bike game: one mutable game-state record driven by a
 * frame loop, a one-second timer and the Space key. The bike steers between
 * road limits, obstacles scroll down the road, a first hit scatters the soba
 * stack (a crash), mashing Space restacks it, and reaching the goal distance
 * or running out of time ends the game.
 */
module Bike {
  import opened Geometry
  import opened Randomness

  const CANVAS_WIDTH: real := 800.0
  const CANVAS_HEIGHT: real := 600.0
  const ACCELERATION: real := 0.8
  const FRICTION: real := 0.92
  const MAX_SPEED: real := 12.0
  const ROAD_LEFT_LIMIT: real := 120.0
  const ROAD_RIGHT_LIMIT: real := CANVAS_WIDTH - 120.0
  /** Milliseconds between obstacle spawns. */
  const OBSTACLE_SPAWN_RATE: real := 1000.0
  /** How many bowls of soba the bike carries when fully stacked. */
  const SOBA_STACK: int := 5

  datatype Kind = Car | Roadworks | Cow
  const OBSTACLE_TYPES: seq<Kind> := [Car, Roadworks, Cow]

  datatype Obstacle = Obstacle(kind: Kind, x: real, y: real)

  /** An axis-aligned box: top-left corner, width and height. */
  datatype Rect = Rect(x: real, y: real, w: real, h: real)

  /** The two held arrow keys (after the keyboard and mouse handlers have set them). */
  datatype Arrows = Arrows(left: bool, right: bool)

  /** What the message overlay shows. */
  datatype Overlay = Title | Hidden | Goal | LostAllSoba | TimeUp

  /** The part of the state that the game's transitions switch. */
  datatype Flags = Flags(playing: bool, crashed: bool, soba: int, overlay: Overlay, timer: bool)

  // ---------------------------------------------------------------------
  // Collision
  // ---------------------------------------------------------------------

  /** `checkCollision`: the two boxes overlap, with touching edges not counting. */
  function CheckCollision(r1: Rect, r2: Rect): (hit: bool)
    ensures hit ==> r1.w + r2.w > 0.0 && r1.h + r2.h > 0.0
  {
    r1.x < r2.x + r2.w && r1.x + r1.w > r2.x &&
    r1.y < r2.y + r2.h && r1.y + r1.h > r2.y
  }

  /** The test does not depend on which box comes first. */
  lemma CollisionSymmetric(r1: Rect, r2: Rect)
    ensures CheckCollision(r1, r2) == CheckCollision(r2, r1)
  {
  }

  predicate StrictlyInside(p: Point, r: Rect) {
    r.x < p.x < r.x + r.w && r.y < p.y < r.y + r.h
  }

  /** For boxes of positive size, a collision is exactly a point strictly inside both. */
  lemma CollisionIsSharedPoint(r1: Rect, r2: Rect)
    requires r1.w > 0.0 && r1.h > 0.0 && r2.w > 0.0 && r2.h > 0.0
    ensures CheckCollision(r1, r2) <==> exists p :: StrictlyInside(p, r1) && StrictlyInside(p, r2)
  {
    if CheckCollision(r1, r2) {
      var lo := if r1.x < r2.x then r2.x else r1.x;
      var hi := if r1.x + r1.w < r2.x + r2.w then r1.x + r1.w else r2.x + r2.w;
      var top := if r1.y < r2.y then r2.y else r1.y;
      var bottom := if r1.y + r1.h < r2.y + r2.h then r1.y + r1.h else r2.y + r2.h;
      var p := Point((lo + hi) / 2.0, (top + bottom) / 2.0);
      assert StrictlyInside(p, r1) && StrictlyInside(p, r2);
    }
  }

  /** The bike's hitbox: 60 by 60 around x, its top 130 pixels above the bottom edge. */
  function BikeHitbox(bikeX: real): Rect {
    Rect(bikeX - 30.0, CANVAS_HEIGHT - 130.0, 60.0, 60.0)
  }

  function ObstacleHitbox(o: Obstacle): Rect {
    Rect(o.x - 30.0, o.y - 30.0, 60.0, 60.0)
  }

  /** The bike hits an obstacle exactly when their centres are less than 60 apart on both axes. */
  lemma HitWindow(bikeX: real, o: Obstacle)
    ensures CheckCollision(BikeHitbox(bikeX), ObstacleHitbox(o)) <==>
            -60.0 < o.x - bikeX < 60.0 && -60.0 < o.y - (CANVAS_HEIGHT - 100.0) < 60.0
  {
  }

  // ---------------------------------------------------------------------
  // Per-frame arithmetic
  // ---------------------------------------------------------------------

  /** The distance still to go after a frame of `dt` milliseconds, never below zero. */
  function DistanceAfter(distance: real, speed: real, dt: real): (d: real)
    ensures d >= 0.0
    ensures d == 0.0 <==> distance - speed * dt / 1000.0 * 2.0 <= 0.0
    ensures d > 0.0 ==> d == distance - speed * dt / 1000.0 * 2.0
  {
    var d := distance - speed * dt / 1000.0 * 2.0;
    if d < 0.0 then 0.0 else d
  }

  /**
   * JavaScript's `a % 100` on numbers: the remainder of truncated division,
   * which takes the sign of `a`.
   */
  function Rem100(a: real): (r: real)
    ensures a >= 0.0 ==> 0.0 <= r < 100.0
    ensures a < 0.0 ==> -100.0 < r <= 0.0
    ensures r == a - 100.0 * Trunc100(a) as real
  {
    var k := Trunc100(a);
    a - 100.0 * k as real
  }

  /** The quotient of `a / 100` rounded toward zero. */
  function Trunc100(a: real): (k: int)
    ensures a >= 0.0 ==> 100.0 * k as real <= a < 100.0 * k as real + 100.0
    ensures a < 0.0 ==> 100.0 * k as real - 100.0 < a <= 100.0 * k as real
  {
    if a >= 0.0 then (a / 100.0).Floor else -((-a / 100.0).Floor)
  }

  function Clamp(lo: real, hi: real, v: real): (r: real)
    requires lo <= hi
    ensures lo <= r <= hi
    ensures lo <= v <= hi ==> r == v
    ensures v < lo ==> r == lo
    ensures v > hi ==> r == hi
  {
    if v > hi then hi else if v < lo then lo else v
  }

  /** The bike velocity after the keys and friction, clamped to the speed limit. */
  function SteeredVelocity(v: real, keys: Arrows): (r: real)
    ensures -MAX_SPEED <= r <= MAX_SPEED
  {
    var a := if keys.left then v - ACCELERATION else v;
    var b := if keys.right then a + ACCELERATION else a;
    Clamp(-MAX_SPEED, MAX_SPEED, b * FRICTION)
  }

  /**
   * One frame of bike physics: the position moves by the clamped velocity
   * and is then kept on the road, the velocity dropping to zero exactly when
   * the road edge stops the bike.
   */
  function Steer(x: real, v: real, keys: Arrows): (r: (real, real))
    ensures ROAD_LEFT_LIMIT <= r.0 <= ROAD_RIGHT_LIMIT
    ensures -MAX_SPEED <= r.1 <= MAX_SPEED
    ensures var w := SteeredVelocity(v, keys);
            r.0 == Clamp(ROAD_LEFT_LIMIT, ROAD_RIGHT_LIMIT, x + w) &&
            (ROAD_LEFT_LIMIT <= x + w <= ROAD_RIGHT_LIMIT ==> r.1 == w) &&
            (!(ROAD_LEFT_LIMIT <= x + w <= ROAD_RIGHT_LIMIT) ==> r.1 == 0.0)
  {
    var w := SteeredVelocity(v, keys);
    var nx := x + w;
    if nx < ROAD_LEFT_LIMIT then (ROAD_LEFT_LIMIT, 0.0)
    else if nx > ROAD_RIGHT_LIMIT then (ROAD_RIGHT_LIMIT, 0.0)
    else (nx, w)
  }

  /** The smoothing factor of soba bowl `i`: 0.2 for the bottom bowl, 0.03 less per bowl up. */
  function LerpFactor(i: int): (f: real)
    requires 0 <= i < SOBA_STACK
    ensures 0.0 < f < 1.0
  {
    0.2 - i as real * 0.03
  }

  /** A step of `pos` toward `target` by fraction `f` in (0, 1) lands between the two. */
  lemma LerpBetween(pos: real, target: real, f: real)
    requires 0.0 < f < 1.0
    ensures var n := pos + (target - pos) * f;
            (pos <= target ==> pos <= n <= target) && (target <= pos ==> target <= n <= pos)
  {
    if pos <= target {
      NonNegProduct(target - pos, f);
      NonNegProduct(target - pos, 1.0 - f);
      assert (target - pos) - (target - pos) * f == (target - pos) * (1.0 - f);
    } else {
      NonNegProduct(pos - target, f);
      NonNegProduct(pos - target, 1.0 - f);
      assert (pos - target) - (pos - target) * f == (pos - target) * (1.0 - f);
      assert (target - pos) * f == -((pos - target) * f);
    }
  }

  lemma NonNegProduct(a: real, b: real)
    requires a >= 0.0 && b >= 0.0
    ensures a * b >= 0.0
  {
    if a > 0.0 && b > 0.0 {
      PosProduct(a, b);
    }
  }

  /**
   * Bowl j of `after` is bowl j of `before` moved by its smoothing factor
   * toward its leader: the bike for the bottom bowl, else the bowl below it
   * at its new position.
   */
  predicate Followed(before: seq<real>, after: seq<real>, bike: real, j: int)
    requires 0 <= j < |before| == |after| == SOBA_STACK
  {
    var target := if j == 0 then bike else after[j - 1];
    after[j] == before[j] + (target - before[j]) * LerpFactor(j)
  }

  // ---------------------------------------------------------------------
  // Obstacles
  // ---------------------------------------------------------------------

  function Advance(o: Obstacle, speed: real): Obstacle {
    o.(y := o.y + speed)
  }

  /** The obstacles that are still on screen after moving down by `speed`, in their order. */
  function Survivors(obs: seq<Obstacle>, speed: real): (s: seq<Obstacle>)
    ensures |s| <= |obs|
    ensures forall o :: o in s ==> o.y <= CANVAS_HEIGHT
  {
    if obs == [] then []
    else
      var m := Advance(obs[0], speed);
      (if m.y > CANVAS_HEIGHT then [] else [m]) + Survivors(obs[1..], speed)
  }

  /**
   * The survivors are exactly the moved obstacles that are still on screen:
   * every survivor is on screen and is a moved obstacle, and every moved
   * obstacle on screen survives.
   */
  lemma {:induction false} SurvivorsSpec(obs: seq<Obstacle>, speed: real)
    ensures forall o :: o in Survivors(obs, speed) ==>
              o.y <= CANVAS_HEIGHT && exists p :: p in obs && o == Advance(p, speed)
    ensures forall p :: p in obs && Advance(p, speed).y <= CANVAS_HEIGHT ==> Advance(p, speed) in Survivors(obs, speed)
  {
    if obs != [] {
      SurvivorsSpec(obs[1..], speed);
      assert forall p :: p in obs[1..] ==> p in obs;
      assert forall p :: p in obs ==> p == obs[0] || p in obs[1..];
    }
  }

  /** How many of `obs` overlap the bike. */
  function Hits(obs: seq<Obstacle>, bikeX: real): (n: nat)
    ensures n <= |obs|
  {
    if obs == [] then 0
    else (if CheckCollision(BikeHitbox(bikeX), ObstacleHitbox(obs[0])) then 1 else 0) + Hits(obs[1..], bikeX)
  }

  // ---------------------------------------------------------------------
  // Transitions of the flags
  // ---------------------------------------------------------------------

  /** `crash`: the bike is down and every bowl is scattered. */
  function Crashed(f: Flags): Flags {
    f.(crashed := true, soba := 0)
  }

  /** `gameOver`: play stops, the timer is cleared and the overlay explains why. */
  function Over(f: Flags, win: bool): Flags {
    Flags(false, false, f.soba, if win then Goal else if f.soba <= 0 then LostAllSoba else TimeUp, false)
  }

  /** A collision: game over when no soba is left, a crash otherwise. */
  function Hit(f: Flags): Flags {
    if f.soba == 0 then Over(f, false) else Crashed(f)
  }

  /** The flags after `n` collisions in one frame. */
  function AfterHits(f: Flags, n: nat): Flags {
    if n == 0 then f else Hit(AfterHits(f, n - 1))
  }

  /**
   * The outcome of a frame's collisions depends only on how many there were:
   * with soba on board the first one crashes the bike and a second one in the
   * same frame, with the stack already scattered, ends the game.
   */
  lemma {:induction false} HitOutcome(f: Flags, n: nat)
    ensures n == 0 ==> AfterHits(f, n) == f
    ensures n >= 1 && f.soba == 0 ==> AfterHits(f, n) == Over(f, false)
    ensures n == 1 && f.soba != 0 ==> AfterHits(f, n) == Crashed(f)
    ensures n >= 2 && f.soba != 0 ==> AfterHits(f, n) == Over(Crashed(f), false)
  {
    if n >= 2 {
      HitOutcome(f, n - 1);
      if f.soba == 0 {
        assert AfterHits(f, n - 1) == Over(f, false);
      } else if n == 2 {
        assert AfterHits(f, n - 1) == Crashed(f);
      } else {
        assert AfterHits(f, n - 1) == Over(Crashed(f), false);
      }
    }
  }

  // ---------------------------------------------------------------------
  // The game state
  // ---------------------------------------------------------------------

  class BikeGame {
    var distance: real
    var time: int
    var sobaCount: int
    var bikeX: real
    var bikeVelocity: real
    /** Road speed in pixels per frame; the game never changes it. */
    const speed: real
    var lastTime: real
    var roadOffset: real
    var sobaPositions: seq<real>
    var obstacles: seq<Obstacle>
    var lastSpawnTime: real
    var isPlaying: bool
    var isCrash: bool
    var overlay: Overlay
    /** Whether the one-second interval timer is installed. */
    var timerRunning: bool

    ghost function Status(): Flags
      reads this
    {
      Flags(isPlaying, isCrash, sobaCount, overlay, timerRunning)
    }

    /** The fields other than the flags and the obstacles. */
    ghost function Ride(): (real, int, real, real, real, seq<real>, real, real)
      reads this
    {
      (distance, time, bikeX, bikeVelocity, roadOffset, sobaPositions, lastTime, lastSpawnTime)
    }

    ghost predicate Valid()
      reads this
    {
      speed == 10.0 &&
      |sobaPositions| == SOBA_STACK &&
      0 <= sobaCount <= SOBA_STACK &&
      distance >= 0.0 &&
      ROAD_LEFT_LIMIT <= bikeX <= ROAD_RIGHT_LIMIT &&
      -MAX_SPEED <= bikeVelocity <= MAX_SPEED &&
      0.0 <= roadOffset < 100.0 &&
      (isCrash ==> isPlaying && sobaCount < SOBA_STACK) &&
      (isPlaying && !isCrash ==> sobaCount == SOBA_STACK) &&
      (isPlaying ==> time > 0)
    }

    /** The initial `state` record. */
    constructor ()
      ensures Valid()
      ensures distance == 1000.0 && time == 60 && sobaCount == 5
      ensures bikeX == CANVAS_WIDTH / 2.0 && bikeVelocity == 0.0 && speed == 10.0
      ensures lastTime == 0.0 && roadOffset == 0.0 && lastSpawnTime == 0.0
      ensures sobaPositions == seq(5, _ => CANVAS_WIDTH / 2.0) && obstacles == []
      ensures !isPlaying && !isCrash && overlay == Title && !timerRunning
    {
      distance := 1000.0;
      time := 60;
      sobaCount := 5;
      bikeX := CANVAS_WIDTH / 2.0;
      bikeVelocity := 0.0;
      speed := 10.0;
      lastTime := 0.0;
      roadOffset := 0.0;
      sobaPositions := [CANVAS_WIDTH / 2.0, CANVAS_WIDTH / 2.0, CANVAS_WIDTH / 2.0,
                        CANVAS_WIDTH / 2.0, CANVAS_WIDTH / 2.0];
      obstacles := [];
      lastSpawnTime := 0.0;
      isPlaying := false;
      isCrash := false;
      overlay := Title;
      timerRunning := false;
    }

    /** `startGame`: a fresh run with a full stack, an empty road and the timer (re)started. */
    method StartGame()
      requires Valid()
      modifies this
      ensures Valid()
      ensures isPlaying && !isCrash && distance == 1000.0 && time == 60 && sobaCount == 5
      ensures obstacles == [] && overlay == Hidden && timerRunning
      ensures bikeX == old(bikeX) && bikeVelocity == old(bikeVelocity) && roadOffset == old(roadOffset)
      ensures sobaPositions == old(sobaPositions) && lastTime == old(lastTime)
      ensures lastSpawnTime == old(lastSpawnTime)
    {
      isPlaying := true;
      isCrash := false;
      distance := 1000.0;
      time := 60;
      sobaCount := 5;
      obstacles := [];
      overlay := Hidden;
      timerRunning := true;
    }

    /** `gameOver`, its state part: play stops and the overlay says why. */
    method GameOver(win: bool)
      modifies this
      ensures Status() == Over(old(Status()), win)
      ensures Ride() == old(Ride()) && obstacles == old(obstacles)
    {
      isPlaying := false;
      isCrash := false;
      timerRunning := false;
      overlay := if win then Goal else if sobaCount <= 0 then LostAllSoba else TimeUp;
    }

    /** `crash`: the stack is scattered and play pauses until it is rebuilt. */
    method Crash()
      modifies this
      ensures Status() == Crashed(old(Status()))
      ensures Ride() == old(Ride()) && obstacles == old(obstacles)
    {
      isCrash := true;
      sobaCount := 0;
    }

    /**
     * `recoverSoba`: one more bowl, never more than five; the bowl being
     * restacked lines up with the bike; a full stack ends the crash and
     * clears the obstacles in the lower 300 pixels of the road.
     */
    method RecoverSoba()
      requires Valid()
      modifies this
      ensures Valid()
      ensures sobaCount == if old(sobaCount) < 5 then old(sobaCount) + 1 else 5
      ensures sobaPositions == old(sobaPositions)[sobaCount - 1 := bikeX]
      ensures sobaCount == 5 ==> !isCrash && obstacles == FilterAbove(old(obstacles))
      ensures sobaCount < 5 ==> isCrash == old(isCrash) && obstacles == old(obstacles)
      ensures isPlaying == old(isPlaying) && overlay == old(overlay) && timerRunning == old(timerRunning)
      ensures distance == old(distance) && bikeX == old(bikeX) && bikeVelocity == old(bikeVelocity)
      ensures roadOffset == old(roadOffset) && time == old(time)
      ensures lastTime == old(lastTime) && lastSpawnTime == old(lastSpawnTime)
    {
      sobaCount := sobaCount + 1;
      if sobaCount > 5 {
        sobaCount := 5;
      }
      sobaPositions := sobaPositions[sobaCount - 1 := bikeX];
      if sobaCount == 5 {
        isCrash := false;
        obstacles := FilterAbove(obstacles);
      }
    }

    /** The Space key: start a game when idle, restack soba after a crash, otherwise nothing. */
    method SpaceKey()
      requires Valid()
      modifies this
      ensures Valid()
      ensures !old(isPlaying) && !old(isCrash) ==>
                isPlaying && !isCrash && distance == 1000.0 && time == 60 && sobaCount == 5 &&
                obstacles == [] && overlay == Hidden && timerRunning &&
                bikeX == old(bikeX) && bikeVelocity == old(bikeVelocity) && roadOffset == old(roadOffset) &&
                sobaPositions == old(sobaPositions) && lastTime == old(lastTime) && lastSpawnTime == old(lastSpawnTime)
      ensures old(isCrash) ==> sobaCount == old(sobaCount) + 1 && (sobaCount == 5 <==> !isCrash)
      ensures old(isCrash) ==>
                sobaPositions == old(sobaPositions)[sobaCount - 1 := old(bikeX)] &&
                (sobaCount == 5 ==> obstacles == FilterAbove(old(obstacles))) &&
                (sobaCount < 5 ==> obstacles == old(obstacles)) &&
                isPlaying == old(isPlaying) && overlay == old(overlay) && timerRunning == old(timerRunning) &&
                distance == old(distance) && time == old(time) && bikeX == old(bikeX) &&
                bikeVelocity == old(bikeVelocity) && roadOffset == old(roadOffset) &&
                lastTime == old(lastTime) && lastSpawnTime == old(lastSpawnTime)
      ensures old(isPlaying) && !old(isCrash) ==> Status() == old(Status()) && Ride() == old(Ride()) && obstacles == old(obstacles)
    {
      if !isPlaying && !isCrash {
        StartGame();
      } else if isCrash {
        RecoverSoba();
      }
    }

    /** The one-second interval: count down while riding, and end the game at zero. */
    method TimerTick()
      requires Valid()
      modifies this
      ensures Valid()
      ensures old(timerRunning && isPlaying && !isCrash) ==> time == old(time) - 1
      ensures old(timerRunning && isPlaying && !isCrash) && old(time) > 1 ==> Status() == old(Status())
      ensures old(timerRunning && isPlaying && !isCrash) && old(time) <= 1 ==>
                Status() == Over(old(Status()), false) && overlay == TimeUp
      ensures !old(timerRunning && isPlaying && !isCrash) ==> time == old(time) && Status() == old(Status())
      ensures obstacles == old(obstacles) && distance == old(distance) && bikeX == old(bikeX)
      ensures bikeVelocity == old(bikeVelocity) && roadOffset == old(roadOffset) && sobaPositions == old(sobaPositions)
      ensures lastTime == old(lastTime) && lastSpawnTime == old(lastSpawnTime)
    {
      if timerRunning && isPlaying && !isCrash {
        time := time - 1;
        if time <= 0 {
          GameOver(false);
        }
      }
    }

    /**
     * `gameLoop` without drawing: the first frame takes its own timestamp as
     * the previous one, and the game advances only while riding.
     */
    method Frame(timestamp: real, keys: Arrows, rng: RandomSource)
      requires Valid() && rng.Valid()
      modifies this, rng
      ensures Valid()
      ensures lastTime == timestamp
      ensures !old(isPlaying && !isCrash) ==> Status() == old(Status()) && obstacles == old(obstacles)
      ensures !old(isPlaying && !isCrash) ==>
                distance == old(distance) && time == old(time) && bikeX == old(bikeX) &&
                bikeVelocity == old(bikeVelocity) && roadOffset == old(roadOffset) &&
                sobaPositions == old(sobaPositions) && lastSpawnTime == old(lastSpawnTime)
      ensures old(isPlaying && !isCrash) ==>
                distance == DistanceAfter(old(distance), speed, timestamp - (if old(lastTime) == 0.0 then timestamp else old(lastTime)))
    {
      if lastTime == 0.0 {
        lastTime := timestamp;
      }
      var deltaTime := timestamp - lastTime;
      lastTime := timestamp;
      if isPlaying && !isCrash {
        Update(deltaTime, timestamp, keys, rng);
      }
    }

    /**
     * `update`: cover distance (ending the game as a win at zero), scroll the
     * road, steer the bike, let the soba stack follow, spawn an obstacle once
     * a second, and move, cull and collide the obstacles.
     */
    method Update(dt: real, timestamp: real, keys: Arrows, rng: RandomSource)
      requires Valid() && isPlaying && !isCrash && rng.Valid()
      modifies this, rng
      ensures Valid()
      ensures distance == DistanceAfter(old(distance), speed, dt)
      ensures distance == 0.0 ==> Status() == Over(old(Status()), true) && overlay == Goal &&
                                  bikeX == old(bikeX) && obstacles == old(obstacles)
      ensures distance == 0.0 ==> bikeVelocity == old(bikeVelocity) && roadOffset == old(roadOffset) &&
                                  sobaPositions == old(sobaPositions) && lastSpawnTime == old(lastSpawnTime)
      ensures distance > 0.0 ==> roadOffset == Rem100(old(roadOffset) + speed)
      ensures distance > 0.0 ==> (bikeX, bikeVelocity) == Steer(old(bikeX), old(bikeVelocity), keys)
      ensures distance > 0.0 ==> forall i :: 0 <= i < SOBA_STACK ==> Followed(old(sobaPositions), sobaPositions, bikeX, i)
      ensures distance > 0.0 && timestamp - old(lastSpawnTime) <= OBSTACLE_SPAWN_RATE ==>
                obstacles == Survivors(old(obstacles), speed) && lastSpawnTime == old(lastSpawnTime)
      ensures distance > 0.0 && timestamp - old(lastSpawnTime) > OBSTACLE_SPAWN_RATE ==>
                lastSpawnTime == timestamp &&
                exists o: Obstacle :: o.y == -50.0 && ROAD_LEFT_LIMIT <= o.x < ROAD_RIGHT_LIMIT && o.kind in OBSTACLE_TYPES &&
                            obstacles == Survivors(old(obstacles) + [o], speed)
      ensures distance > 0.0 ==> Status() == AfterHits(old(Status()), Hits(obstacles, bikeX))
      ensures lastTime == old(lastTime) && time == old(time)
    {
      distance := DistanceAfter(distance, speed, dt);
      if distance <= 0.0 {
        GameOver(true);
        return;
      }
      roadOffset := Rem100(roadOffset + speed);
      SteerBike(keys);
      FollowSoba();
      ghost var before := obstacles;
      SpawnIfDue(timestamp, rng);
      ghost var spawned := obstacles;
      MoveObstacles();
      if timestamp - old(lastSpawnTime) > OBSTACLE_SPAWN_RATE {
        ghost var o: Obstacle :| o.y == -50.0 && ROAD_LEFT_LIMIT <= o.x < ROAD_RIGHT_LIMIT &&
                                 o.kind in OBSTACLE_TYPES && spawned == before + [o];
        assert obstacles == Survivors(before + [o], speed);
      }
    }

    /** The spawning block of `update`: one obstacle once more than a second has passed since the last. */
    method SpawnIfDue(timestamp: real, rng: RandomSource)
      requires rng.Valid()
      modifies this, rng
      ensures timestamp - old(lastSpawnTime) <= OBSTACLE_SPAWN_RATE ==>
                obstacles == old(obstacles) && lastSpawnTime == old(lastSpawnTime)
      ensures timestamp - old(lastSpawnTime) > OBSTACLE_SPAWN_RATE ==>
                lastSpawnTime == timestamp &&
                exists o: Obstacle :: o.y == -50.0 && ROAD_LEFT_LIMIT <= o.x < ROAD_RIGHT_LIMIT && o.kind in OBSTACLE_TYPES &&
                            obstacles == old(obstacles) + [o]
      ensures Status() == old(Status()) && sobaPositions == old(sobaPositions) && bikeX == old(bikeX)
      ensures bikeVelocity == old(bikeVelocity) && distance == old(distance) && roadOffset == old(roadOffset)
      ensures time == old(time) && lastTime == old(lastTime)
    {
      if timestamp - lastSpawnTime > OBSTACLE_SPAWN_RATE {
        SpawnObstacle(rng);
        lastSpawnTime := timestamp;
        assert obstacles == old(obstacles) + [obstacles[|old(obstacles)|]];
      }
    }

    /** The bike-physics block of `update`. */
    method SteerBike(keys: Arrows)
      modifies this
      ensures (bikeX, bikeVelocity) == Steer(old(bikeX), old(bikeVelocity), keys)
      ensures Status() == old(Status()) && obstacles == old(obstacles) && sobaPositions == old(sobaPositions)
      ensures distance == old(distance) && roadOffset == old(roadOffset) && time == old(time)
      ensures lastTime == old(lastTime) && lastSpawnTime == old(lastSpawnTime)
    {
      if keys.left {
        bikeVelocity := bikeVelocity - ACCELERATION;
      }
      if keys.right {
        bikeVelocity := bikeVelocity + ACCELERATION;
      }
      bikeVelocity := bikeVelocity * FRICTION;
      if bikeVelocity > MAX_SPEED {
        bikeVelocity := MAX_SPEED;
      }
      if bikeVelocity < -MAX_SPEED {
        bikeVelocity := -MAX_SPEED;
      }
      bikeX := bikeX + bikeVelocity;
      if bikeX < ROAD_LEFT_LIMIT {
        bikeX := ROAD_LEFT_LIMIT;
        bikeVelocity := 0.0;
      }
      if bikeX > ROAD_RIGHT_LIMIT {
        bikeX := ROAD_RIGHT_LIMIT;
        bikeVelocity := 0.0;
      }
    }

    /**
     * The soba block of `update`: bowl i moves toward the bowl below it (the
     * bottom one toward the bike) by its smoothing factor, bottom to top.
     */
    method FollowSoba()
      requires |sobaPositions| == SOBA_STACK
      modifies this
      ensures |sobaPositions| == SOBA_STACK
      ensures forall i :: 0 <= i < SOBA_STACK ==> Followed(old(sobaPositions), sobaPositions, bikeX, i)
      ensures Status() == old(Status()) && obstacles == old(obstacles) && bikeX == old(bikeX)
      ensures bikeVelocity == old(bikeVelocity) && distance == old(distance) && roadOffset == old(roadOffset)
      ensures time == old(time) && lastTime == old(lastTime) && lastSpawnTime == old(lastSpawnTime)
    {
      ghost var before := sobaPositions;
      var pos := sobaPositions;
      var targetX := bikeX;
      var i := 0;
      while i < 5
        invariant 0 <= i <= 5 && |pos| == 5
        invariant forall j :: i <= j < 5 ==> pos[j] == before[j]
        invariant targetX == if i == 0 then bikeX else pos[i - 1]
        invariant forall j :: 0 <= j < i ==> Followed(before, pos, bikeX, j)
      {
        var lerpFactor := 0.2 - i as real * 0.03;
        assert lerpFactor == LerpFactor(i);
        ghost var prev := pos;
        pos := pos[i := pos[i] + (targetX - pos[i]) * lerpFactor];
        assert Followed(before, pos, bikeX, i);
        assert forall j :: 0 <= j < i ==> Followed(before, prev, bikeX, j) ==> Followed(before, pos, bikeX, j);
        targetX := pos[i];
        i := i + 1;
      }
      sobaPositions := pos;
    }

    /** `spawnObstacle`: a random kind at a random x across the road, just above the screen. */
    method SpawnObstacle(rng: RandomSource)
      requires rng.Valid()
      modifies this, rng
      ensures |obstacles| == |old(obstacles)| + 1 && obstacles[..|old(obstacles)|] == old(obstacles)
      ensures var o := obstacles[|old(obstacles)|];
              o.y == -50.0 && ROAD_LEFT_LIMIT <= o.x < ROAD_RIGHT_LIMIT && o.kind in OBSTACLE_TYPES
      ensures Status() == old(Status()) && Ride() == old(Ride())
    {
      var r := rng.Next();
      var kind := OBSTACLE_TYPES[Below(r, |OBSTACLE_TYPES|)];
      var s := rng.Next();
      var x := ROAD_LEFT_LIMIT + s * (ROAD_RIGHT_LIMIT - ROAD_LEFT_LIMIT);
      obstacles := obstacles + [Obstacle(kind, x, -50.0)];
    }

    /** The collision test of the obstacle loop: a hit ends the game without soba, else crashes. */
    method CollideWithBike(obs: Obstacle, ghost start: Flags, ghost n: nat)
      requires Status() == AfterHits(start, n)
      modifies this
      ensures Status() == AfterHits(start, n + if CheckCollision(BikeHitbox(bikeX), ObstacleHitbox(obs)) then 1 else 0)
      ensures Ride() == old(Ride()) && obstacles == old(obstacles)
    {
      var bikeHitbox := BikeHitbox(bikeX);
      var obsHitbox := ObstacleHitbox(obs);
      if CheckCollision(bikeHitbox, obsHitbox) {
        if sobaCount == 0 {
          GameOver(false);
        } else {
          Crash();
        }
      }
    }

    /**
     * The obstacle loop of `update`, last to first: each obstacle moves down
     * by the road speed, one that has left the screen is spliced out, and
     * one that overlaps the bike is a collision.
     */
    method MoveObstacles()
      requires Valid() && isPlaying && !isCrash
      modifies this
      ensures Valid()
      ensures obstacles == Survivors(old(obstacles), speed)
      ensures Status() == AfterHits(old(Status()), Hits(obstacles, bikeX))
      ensures Ride() == old(Ride())
    {
      ghost var all := obstacles;
      ghost var start := Status();
      ghost var rest: seq<Obstacle> := [];
      var i := |obstacles|;
      assert all[i..] == [];
      while i > 0
        invariant 0 <= i <= |all|
        invariant rest == Survivors(all[i..], speed)
        invariant obstacles == all[..i] + rest
        invariant Status() == AfterHits(start, Hits(rest, bikeX))
        invariant Ride() == old(Ride())
        decreases i
      {
        i := i - 1;
        rest := StepObstacle(i, all, start, rest);
      }
      assert all[0..] == all;
      FlagsAfterHits(start, Hits(obstacles, bikeX));
    }

    /** One pass of the obstacle loop's body, on obstacle i. */
    method StepObstacle(i: nat, ghost all: seq<Obstacle>, ghost start: Flags, ghost rest: seq<Obstacle>)
      returns (ghost rest': seq<Obstacle>)
      requires i < |all| && rest == Survivors(all[i + 1..], speed)
      requires obstacles == all[..i + 1] + rest
      requires Status() == AfterHits(start, Hits(rest, bikeX))
      modifies this
      ensures rest' == Survivors(all[i..], speed)
      ensures obstacles == all[..i] + rest'
      ensures Status() == AfterHits(start, Hits(rest', bikeX))
      ensures Ride() == old(Ride())
    {
      var onScreen := AdvanceObstacle(i, all, rest);
      if !onScreen {
        return rest;
      }
      rest' := [obstacles[i]] + rest;
      CollideWithBike(obstacles[i], start, Hits(rest, bikeX));
    }

    /**
     * Moves obstacle i down by the road speed and splices it out when it
     * has left the screen; tells whether it is still on screen.
     */
    method AdvanceObstacle(i: nat, ghost all: seq<Obstacle>, ghost rest: seq<Obstacle>) returns (onScreen: bool)
      requires i < |all| && rest == Survivors(all[i + 1..], speed)
      requires obstacles == all[..i + 1] + rest
      modifies this
      ensures var m := Advance(all[i], speed);
              onScreen == (m.y <= CANVAS_HEIGHT) &&
              (onScreen ==> i < |obstacles| && obstacles[i] == m && obstacles == all[..i] + ([m] + rest) &&
                            [m] + rest == Survivors(all[i..], speed) &&
                            Hits([m] + rest, bikeX) ==
                              (if CheckCollision(BikeHitbox(bikeX), ObstacleHitbox(m)) then 1 else 0) + Hits(rest, bikeX)) &&
              (!onScreen ==> obstacles == all[..i] + rest && rest == Survivors(all[i..], speed))
      ensures Status() == old(Status()) && Ride() == old(Ride())
    {
      StepFacts(all, i, speed, obstacles, rest, bikeX);
      var obs := obstacles[i];
      obs := obs.(y := obs.y + speed);
      obstacles := obstacles[i := obs];
      if obs.y > CANVAS_HEIGHT {
        obstacles := obstacles[..i] + obstacles[i + 1..];
        return false;
      }
      return true;
    }
  }

  /**
   * While riding the stack is always full, so the first collision of a
   * frame always crashes; the "no soba left" game over is reached only by a
   * second collision in the same frame.
   */
  lemma SecondHitEndsGame(f: Flags, n: nat)
    requires f.playing && !f.crashed && f.soba == SOBA_STACK
    ensures n == 1 ==> AfterHits(f, n) == f.(crashed := true, soba := 0)
    ensures n >= 2 ==> !AfterHits(f, n).playing && AfterHits(f, n).overlay == LostAllSoba
  {
    HitOutcome(f, n);
  }

  /** Sound flags before a frame's collisions stay sound after them, and a finished game stays finished. */
  lemma FlagsAfterHits(f: Flags, n: nat)
    requires f.playing && !f.crashed && f.soba == SOBA_STACK
    ensures var g := AfterHits(f, n);
            0 <= g.soba <= SOBA_STACK && (g.crashed ==> g.playing && g.soba < SOBA_STACK) &&
            (g.playing && !g.crashed ==> g.soba == SOBA_STACK) && (g.playing ==> f.playing)
  {
    HitOutcome(f, n);
  }

  /** What one pass of the obstacle loop's body needs about the lists. */
  lemma StepFacts(all: seq<Obstacle>, i: nat, speed: real, cur: seq<Obstacle>, rest: seq<Obstacle>, bikeX: real)
    requires i < |all| && rest == Survivors(all[i + 1..], speed)
    requires cur == all[..i + 1] + rest
    ensures i < |cur| && cur[i] == all[i]
    ensures var m := Advance(all[i], speed);
            (m.y > CANVAS_HEIGHT ==>
               cur[i := m][..i] + cur[i := m][i + 1..] == all[..i] + rest && rest == Survivors(all[i..], speed)) &&
            (m.y <= CANVAS_HEIGHT ==>
               cur[i := m] == all[..i] + ([m] + rest) && [m] + rest == Survivors(all[i..], speed) &&
               Hits([m] + rest, bikeX) ==
                 (if CheckCollision(BikeHitbox(bikeX), ObstacleHitbox(m)) then 1 else 0) + Hits(rest, bikeX))
  {
    var m := Advance(all[i], speed);
    SurvivorsStep(all, i, speed, rest);
    SpliceStep(all, i, cur, m, rest);
    HitsCons(m, rest, bikeX);
  }

  /** One step of the reverse loop: moving obstacle i and splicing it out if it left the screen. */
  lemma SpliceStep(all: seq<Obstacle>, i: nat, cur: seq<Obstacle>, m: Obstacle, rest: seq<Obstacle>)
    requires i < |all|
    requires cur == all[..i + 1] + rest
    ensures i < |cur| && cur[i] == all[i]
    ensures cur[i := m][..i] + cur[i := m][i + 1..] == all[..i] + rest
    ensures cur[i := m] == all[..i] + ([m] + rest)
  {
    assert cur == all[..i] + [all[i]] + rest by {
      assert all[..i + 1] == all[..i] + [all[i]];
    }
    Replace(all[..i], all[i], m, rest);
  }

  /** Overwriting, then removing, the element after a prefix. */
  lemma Replace<T>(prefix: seq<T>, x: T, y: T, rest: seq<T>)
    ensures var moved := (prefix + [x] + rest)[|prefix| := y];
            moved == prefix + [y] + rest && moved[..|prefix|] + moved[|prefix| + 1..] == prefix + rest
  {
    var moved := (prefix + [x] + rest)[|prefix| := y];
    assert moved == prefix + [y] + rest;
    assert moved[..|prefix|] == prefix && moved[|prefix| + 1..] == rest;
  }

  /** The obstacles kept when a rebuilt stack clears the lower part of the road. */
  function FilterAbove(obs: seq<Obstacle>): (r: seq<Obstacle>)
    ensures |r| <= |obs|
    ensures forall o :: o in r <==> o in obs && o.y < CANVAS_HEIGHT - 300.0
  {
    if obs == [] then []
    else (if obs[0].y < CANVAS_HEIGHT - 300.0 then [obs[0]] else []) + FilterAbove(obs[1..])
  }

  /** Unfolding `Survivors` at position i of a list. */
  lemma SurvivorsStep(all: seq<Obstacle>, i: nat, speed: real, rest: seq<Obstacle>)
    requires i < |all| && rest == Survivors(all[i + 1..], speed)
    ensures Survivors(all[i..], speed) ==
            (if Advance(all[i], speed).y > CANVAS_HEIGHT then [] else [Advance(all[i], speed)]) + rest
  {
    assert all[i..][0] == all[i] && all[i..][1..] == all[i + 1..];
  }

  /** Unfolding `Hits` at the front of a list. */
  lemma HitsCons(m: Obstacle, rest: seq<Obstacle>, bikeX: real)
    ensures Hits([m] + rest, bikeX) ==
            (if CheckCollision(BikeHitbox(bikeX), ObstacleHitbox(m)) then 1 else 0) + Hits(rest, bikeX)
  {
    assert ([m] + rest)[0] == m && ([m] + rest)[1..] == rest;
  }

}
