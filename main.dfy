/** The entry point (main.py): it creates the game, keeps the rocket tuple in
    a local variable, and on every frame runs detection with the previous
    tuple and writes the result into the game. */
module Scheduler {
  import opened Config
  import opened Detection
  import opened Game

  predicate AllWellFormed(cs: seq<Capture>) {
    forall i :: 0 <= i < |cs| ==> WellFormed(cs[i])
  }

  predicate AllInRange(cs: seq<Capture>) {
    forall i :: 0 <= i < |cs| ==> InRange(cs[i])
  }

  /** The rocket tuple after one detection tick per capture in `cs`: each tick
      is given the previous tick's result. */
  function Track(start: Vec3, cs: seq<Capture>): (r: Vec3)
    requires AllWellFormed(cs)
    ensures InRoom(start) && AllInRange(cs) ==> InRoom(r)
  {
    if cs == [] then start else DetectHand3D(Track(start, cs[..|cs| - 1]), cs[|cs| - 1])
  }

  /** With no successful detection the rocket stays at its start. */
  lemma {:induction false} TrackFreezesWithoutDetection(start: Vec3, cs: seq<Capture>)
    requires AllWellFormed(cs)
    requires forall i :: 0 <= i < |cs| ==> !Detects(cs[i])
    ensures Track(start, cs) == start
  {
    if cs != [] {
      TrackFreezesWithoutDetection(start, cs[..|cs| - 1]);
    }
  }

  /** The rocket holds the coordinate of the most recent successful detection. */
  lemma {:induction false} TrackIsMostRecentDetection(start: Vec3, cs: seq<Capture>, i: int)
    requires AllWellFormed(cs)
    requires 0 <= i < |cs| && Detects(cs[i])
    requires forall j :: i < j < |cs| ==> !Detects(cs[j])
    ensures Track(start, cs) == Mapped(cs[i])
  {
    if i < |cs| - 1 {
      TrackIsMostRecentDetection(start, cs[..|cs| - 1], i);
    }
  }

  /** A tick that detects nothing leaves the rocket exactly where it was. */
  lemma MissKeepsTrack(start: Vec3, cs: seq<Capture>, c: Capture)
    requires AllWellFormed(cs) && WellFormed(c) && !Detects(c)
    ensures AllWellFormed(cs + [c]) && Track(start, cs + [c]) == Track(start, cs)
  {
    assert (cs + [c])[..|cs|] == cs;
  }

  /** The detection task for one tick: map the capture with the previous
      tuple and write the result into the game's rocket. The result is always
      a three-coordinate value, so the source's tuple check always passes. */
  method DetectionTask(game: MyGame, rocketXyz: Vec3, c: Capture) returns (next: Vec3)
    requires WellFormed(c)
    modifies game
    ensures next == DetectHand3D(rocketXyz, c)
    ensures game.Rocket() == next
    ensures game.Ball() == old(game.Ball())
  {
    next := DetectHand3D(rocketXyz, c);
    game.SetRocketPosition(next.x, next.y, next.z);
  }

  /** The whole run: create the game, take the rocket tuple from its fields,
      then for every frame run the ball step with that frame's elapsed time
      and the detection task with that frame's capture. */
  method Run(dts: seq<real>, cs: seq<Capture>) returns (game: MyGame, rocketXyz: Vec3)
    requires |dts| == |cs|
    requires AllWellFormed(cs)
    ensures rocketXyz == Track(START_ROCKET, cs)
    ensures game.Rocket() == rocketXyz
    ensures AllInRange(cs) ==> InRoom(rocketXyz)
    ensures game.Ball() == Simulate(START_BALL, dts)
    ensures InRoom(Position(game.Ball()))
  {
    game := new MyGame();
    RocketStartInRoom();
    rocketXyz := game.Rocket();
    var i := 0;
    while i < |cs|
      invariant 0 <= i <= |cs|
      invariant fresh(game)
      invariant rocketXyz == Track(START_ROCKET, cs[..i])
      invariant game.Rocket() == rocketXyz
      invariant game.Ball() == Simulate(START_BALL, dts[..i])
      invariant InRoom(Position(game.Ball()))
    {
      game.Step(dts[i]);
      rocketXyz := DetectionTask(game, rocketXyz, cs[i]);
      assert cs[..i + 1][..i] == cs[..i];
      assert dts[..i + 1][..i] == dts[..i];
      i := i + 1;
    }
    assert cs[..i] == cs;
    assert dts[..i] == dts;
  }
}
