/** The game object (game.py): a bouncing ball integrated frame by frame and
    reflected off the walls of the room, and the rocket marker whose position
    is written from outside. */
module Game {
  import opened Config

  /** Position and velocity of the ball along one axis. */
  datatype Motion = Motion(pos: real, vel: real)

  /** The ball's state on the three axes. */
  datatype BallState = BallState(x: Motion, y: Motion, z: Motion)

  /** The ball's state when the game is created. */
  const START_BALL: BallState :=
    BallState(Motion(BALL_START_X, BALL_VX), Motion(BALL_START_Y, BALL_VY), Motion(BALL_START_Z, BALL_VZ))

  /** The rocket's position when the game is created. */
  const START_ROCKET: Vec3 := Vec3(ROCKET_START_X, ROCKET_START_Y, ROCKET_START_Z)

  function Position(b: BallState): Vec3 {
    Vec3(b.x.pos, b.y.pos, b.z.pos)
  }

  function Abs(r: real): real {
    if r < 0.0 then -r else r
  }

  /** Twice the kinetic energy of a unit-mass ball. */
  function KineticEnergy(b: BallState): real {
    b.x.vel * b.x.vel + b.y.vel * b.y.vel + b.z.vel * b.z.vel
  }

  /** The two wall checks of one axis, one after the other, applied to the
      integrated position `p` and the velocity `v`: the second check sees the
      result of the first, as in the source. */
  function Bounce(p: real, v: real, lo: real, hi: real): (r: Motion)
    ensures lo <= hi ==> lo <= r.pos <= hi
    ensures lo <= hi && p < lo ==> r == Motion(lo, -v)
    ensures lo <= hi < p ==> r == Motion(hi, -v)
    ensures lo <= p <= hi ==> r == Motion(p, v)
    ensures r.vel == v || r.vel == -v
  {
    var afterMin := if p < lo then Motion(lo, -v) else Motion(p, v);
    if afterMin.pos > hi then Motion(hi, -afterMin.vel) else afterMin
  }

  /** One axis of one frame: integrate by `vel * dt`, then check both walls. */
  function AxisStep(m: Motion, dt: real, lo: real, hi: real): (r: Motion)
    ensures lo <= hi ==> lo <= r.pos <= hi
    ensures lo <= hi && m.pos + m.vel * dt < lo ==> r == Motion(lo, -m.vel)
    ensures lo <= hi < m.pos + m.vel * dt ==> r == Motion(hi, -m.vel)
    ensures lo <= m.pos + m.vel * dt <= hi ==> r == Motion(m.pos + m.vel * dt, m.vel)
    ensures r.vel == m.vel || r.vel == -m.vel
    ensures Abs(r.vel) == Abs(m.vel)
  {
    Bounce(m.pos + m.vel * dt, m.vel, lo, hi)
  }

  /** One frame of ball physics: every axis is stepped against its own walls. */
  function BallStep(b: BallState, dt: real): (r: BallState)
    ensures InRoom(Position(r))
    ensures KineticEnergy(r) == KineticEnergy(b)
    ensures r.x == AxisStep(b.x, dt, ROOM_MIN_X, ROOM_MAX_X)
    ensures r.y == AxisStep(b.y, dt, ROOM_MIN_Y, ROOM_MAX_Y)
    ensures r.z == AxisStep(b.z, dt, ROOM_MIN_Z, ROOM_MAX_Z)
  {
    BallState(AxisStep(b.x, dt, ROOM_MIN_X, ROOM_MAX_X),
              AxisStep(b.y, dt, ROOM_MIN_Y, ROOM_MAX_Y),
              AxisStep(b.z, dt, ROOM_MIN_Z, ROOM_MAX_Z))
  }

  /** A frame integrates every axis and then applies its wall checks. */
  lemma BallStepBounces(b: BallState, dt: real)
    ensures BallStep(b, dt) == BallState(Bounce(b.x.pos + b.x.vel * dt, b.x.vel, ROOM_MIN_X, ROOM_MAX_X),
                                         Bounce(b.y.pos + b.y.vel * dt, b.y.vel, ROOM_MIN_Y, ROOM_MAX_Y),
                                         Bounce(b.z.pos + b.z.vel * dt, b.z.vel, ROOM_MIN_Z, ROOM_MAX_Z))
  {
  }

  /** The ball after one frame per time step in `dts`, in order. */
  function Simulate(b: BallState, dts: seq<real>): (r: BallState)
    ensures KineticEnergy(r) == KineticEnergy(b)
    ensures dts != [] || InRoom(Position(b)) ==> InRoom(Position(r))
  {
    if dts == [] then b else BallStep(Simulate(b, dts[..|dts| - 1]), dts[|dts| - 1])
  }

  /** Worked example: a ball 5 units above the floor falling at 30 units per
      second lands on the floor after one second and bounces up at 30. */
  lemma FloorBounceExample()
    ensures AxisStep(Motion(5.0, -30.0), 1.0, ROOM_MIN_Y, ROOM_MAX_Y) == Motion(0.0, 30.0)
  {
  }

  /** A corner hit: both axes that cross a wall are reflected in the same frame,
      each on its own; the third axis moves freely. */
  lemma CornerHitExample()
    ensures BallStep(BallState(Motion(195.0, 10.0), Motion(195.0, 10.0), Motion(300.0, 5.0)), 1.0)
         == BallState(Motion(200.0, -10.0), Motion(200.0, -10.0), Motion(305.0, 5.0))
  {
  }

  /** The new state of an axis depends only on that axis's old state. */
  lemma AxesAreIndependent(b1: BallState, b2: BallState, dt: real)
    ensures b1.x == b2.x ==> BallStep(b1, dt).x == BallStep(b2, dt).x
    ensures b1.y == b2.y ==> BallStep(b1, dt).y == BallStep(b2, dt).y
    ensures b1.z == b2.z ==> BallStep(b1, dt).z == BallStep(b2, dt).z
  {
  }

  /** With no elapsed time a ball inside the room does not change. */
  lemma ZeroStepKeepsBall(b: BallState)
    requires InRoom(Position(b))
    ensures BallStep(b, 0.0) == b
  {
  }

  /** There is no guard against a clock that runs backwards: a negative time
      step integrates the ball backwards. */
  lemma NegativeStepMovesBall()
    ensures Position(BallStep(START_BALL, -1.0)) == Vec3(-50.0, 180.0, 360.0)
  {
  }

  /** The game object's state (MyGame): the ball's six fields and the rocket's
      three. Window, camera, models and rendering are not modelled. */
  class MyGame {
    var ballX: real
    var ballY: real
    var ballZ: real
    var ballVX: real
    var ballVY: real
    var ballVZ: real
    var rocketX: real
    var rocketY: real
    var rocketZ: real

    function Ball(): BallState
      reads this
    {
      BallState(Motion(ballX, ballVX), Motion(ballY, ballVY), Motion(ballZ, ballVZ))
    }

    function Rocket(): Vec3
      reads this
    {
      Vec3(rocketX, rocketY, rocketZ)
    }

    /** Starting positions and velocity from the configuration. */
    constructor ()
      ensures Ball() == START_BALL
      ensures Rocket() == START_ROCKET
      ensures InRoom(Position(Ball())) && InRoom(Rocket())
    {
      ballX, ballY, ballZ := BALL_START_X, BALL_START_Y, BALL_START_Z;
      ballVX, ballVY, ballVZ := BALL_VX, BALL_VY, BALL_VZ;
      rocketX, rocketY, rocketZ := ROCKET_START_X, ROCKET_START_Y, ROCKET_START_Z;
    }

    /** The physics part of the per-frame update task, with the elapsed time
        `dt` given: move the ball, then check floor, ceiling, left/right and
        front/back. The rocket is not written. */
    method Step(dt: real)
      modifies this
      ensures Ball() == BallStep(old(Ball()), dt)
      ensures InRoom(Position(Ball()))
      ensures Rocket() == old(Rocket())
    {
      ghost var b0 := Ball();
      ballX := ballX + ballVX * dt;
      ballY := ballY + ballVY * dt;
      ballZ := ballZ + ballVZ * dt;
      ghost var x1, y1, z1 := ballX, ballY, ballZ;
      assert x1 == b0.x.pos + b0.x.vel * dt && y1 == b0.y.pos + b0.y.vel * dt && z1 == b0.z.pos + b0.z.vel * dt;

      // Floor
      if ballY < ROOM_MIN_Y {
        ballY := ROOM_MIN_Y;
        ballVY := -ballVY;
      }
      // Ceiling
      if ballY > ROOM_MAX_Y {
        ballY := ROOM_MAX_Y;
        ballVY := -ballVY;
      }
      assert Motion(ballY, ballVY) == Bounce(y1, b0.y.vel, ROOM_MIN_Y, ROOM_MAX_Y);
      // Left/Right
      if ballX < ROOM_MIN_X {
        ballX := ROOM_MIN_X;
        ballVX := -ballVX;
      }
      if ballX > ROOM_MAX_X {
        ballX := ROOM_MAX_X;
        ballVX := -ballVX;
      }
      assert Motion(ballX, ballVX) == Bounce(x1, b0.x.vel, ROOM_MIN_X, ROOM_MAX_X);
      // Front/Back
      if ballZ < ROOM_MIN_Z {
        ballZ := ROOM_MIN_Z;
        ballVZ := -ballVZ;
      }
      if ballZ > ROOM_MAX_Z {
        ballZ := ROOM_MAX_Z;
        ballVZ := -ballVZ;
      }
      assert Motion(ballZ, ballVZ) == Bounce(z1, b0.z.vel, ROOM_MIN_Z, ROOM_MAX_Z);
      BallStepBounces(b0, dt);
      assert Ball() == BallState(Bounce(x1, b0.x.vel, ROOM_MIN_X, ROOM_MAX_X),
                                 Bounce(y1, b0.y.vel, ROOM_MIN_Y, ROOM_MAX_Y),
                                 Bounce(z1, b0.z.vel, ROOM_MIN_Z, ROOM_MAX_Z));
    }

    /** Writes the rocket's three coordinates and nothing else. */
    method SetRocketPosition(x: real, y: real, z: real)
      modifies this
      ensures Rocket() == Vec3(x, y, z)
      ensures Ball() == old(Ball())
    {
      rocketX := x;
      rocketY := y;
      rocketZ := z;
    }
  }
}
