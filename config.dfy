/** Room bounds, start values and frame rate of the animation (config.py),
    plus the three-coordinate value type used for positions. */
module Config {

  /** A position (or velocity) in room coordinates: X left/right, Y floor to
      ceiling, Z near to far. The source passes these around as 3-tuples. */
  datatype Vec3 = Vec3(x: real, y: real, z: real)

  // Room (bounding box) in 3D
  const ROOM_MIN_X: real := -200.0
  const ROOM_MAX_X: real := 200.0
  const ROOM_MIN_Y: real := 0.0    // floor
  const ROOM_MAX_Y: real := 200.0  // ceiling
  const ROOM_MIN_Z: real := 0.0
  const ROOM_MAX_Z: real := 600.0

  // Initial position and velocity of the ball
  const BALL_START_X: real := 0.0
  const BALL_START_Y: real := 150.0
  const BALL_START_Z: real := 400.0
  const BALL_VX: real := 50.0
  const BALL_VY: real := -30.0
  const BALL_VZ: real := 40.0

  // Initial position of the rocket (the hand marker)
  const ROCKET_START_X: real := 0.0
  const ROCKET_START_Y: real := 100.0
  const ROCKET_START_Z: real := 100.0

  /** Frames per second. Imported by the game and the entry point, but never
      used to drive timing. */
  const FPS: nat := 30

  /** The point lies inside the closed room box on every axis. */
  predicate InRoom(v: Vec3) {
    ROOM_MIN_X <= v.x <= ROOM_MAX_X &&
    ROOM_MIN_Y <= v.y <= ROOM_MAX_Y &&
    ROOM_MIN_Z <= v.z <= ROOM_MAX_Z
  }

  /** The room is non-degenerate on every axis. */
  lemma RoomIsNonDegenerate()
    ensures ROOM_MIN_X < ROOM_MAX_X
    ensures ROOM_MIN_Y < ROOM_MAX_Y
    ensures ROOM_MIN_Z < ROOM_MAX_Z
  {
  }

  /** The ball starts inside the room. */
  lemma BallStartInRoom()
    ensures InRoom(Vec3(BALL_START_X, BALL_START_Y, BALL_START_Z))
  {
  }

  /** The rocket starts inside the room. */
  lemma RocketStartInRoom()
    ensures InRoom(Vec3(ROCKET_START_X, ROCKET_START_Y, ROCKET_START_Z))
  {
  }

  /** The frame rate is a positive whole number. */
  lemma FrameRateIsPositive()
    ensures FPS == 30 && FPS > 0
  {
  }
}
