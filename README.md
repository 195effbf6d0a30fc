# Ball and hand-tracked rocket in a box-shaped room

This project models the frame-update logic of a small animation. A ball bounces inside an axis-aligned room. A "rocket" marker follows the wrist of a hand seen by a webcam. Four modules follow the four core files:

- `Config` (config.dfy, config.py): the room bounds, the ball's start position and velocity, the rocket's start position and the frame rate, as constants. It also holds `Vec3`, the three-coordinate tuple, and `InRoom`, the room-box predicate. Lemmas state that the room is non-degenerate and that both start positions lie inside it.
- `Game` (game.dfy, game.py): the ball physics.
  - `AxisStep` handles one axis for one frame. It integrates the position by `vel * dt`, then runs the two wall checks one after the other (`Bounce`).
  - `BallStep` applies `AxisStep` to all three axes. `Simulate` repeats `BallStep` over a sequence of time steps.
  - The class `MyGame` holds the ball's six fields and the rocket's three fields. It has a constructor, `Step(dt)` (the physics part of `updateTask`) and `SetRocketPosition`.
- `Detection` (detection.dfy, detection.py): `detect_hand_3D` without the camera and the neural networks. One tick's input is a `Capture`: either a failed camera read, or a frame with its width, height, optional wrist pixel and depth map. Inside it:
  - `ClampIndex` is the clamped depth lookup.
  - `MapX`, `MapY` and `MapZ` are the three linear maps.
  - `Locate` is the block that runs when a wrist was found.
  - `DetectHand3D` is the whole function, including the fallback to the previous coordinate.
- `Scheduler` (main.dfy, main.py): the rocket tuple threaded through the detection ticks.
  - `Track` is the fold over a sequence of captures.
  - `DetectionTask` is one tick of `detectionTask`.
  - `Run` creates the game and then, for each frame, runs the ball step and the detection task.
  - Lemmas prove that the rocket always holds the most recent successful detection, or its start value if there was none.

Quantities are `real`. Pixel coordinates and frame sizes are `int`.

Three points where the model keeps the code's exact behaviour:

- The code has no guard for a non-positive `dt`. A negative `dt` moves a moving ball backwards (`Game.NegativeStepMovesBall`). `dt = 0` with a ball inside the room leaves it unchanged (`Game.ZeroStepKeepsBall`), purely by the arithmetic.
- The code clamps only the depth-lookup index. X and Y use the wrist pixel unclamped. With a normalised depth map, the rocket lies in the room exactly when the wrist pixel lies in `[0, w] x [0, h]` (`Detection.Locate`, `Detection.InRange`). `Detection.OutOfFrameLeavesRoom` shows a wrist left of the frame placed left of the room.
- The ceiling check is a second `if`, not an `else if`. It sees the result of the floor check. With `min <= max` this gives the same result as `else if`, and all properties are stated under that condition.

## Model

| member | source | states |
|---|---|---|
| Config.RoomIsNonDegenerate | config.py:7-12 | min < max on X, Y and Z |
| Config.BallStartInRoom | config.py:7-17 | the ball start (0, 150, 400) lies inside the room |
| Config.RocketStartInRoom | config.py:7-27 | the rocket start (0, 100, 100) lies inside the room |
| Config.FrameRateIsPositive | config.py:30 | FPS is the positive integer 30 |
| Game.Bounce | game.py:89-109 | the two wall checks on one axis: given lo <= hi, the position ends in [lo, hi]; below lo it becomes lo and the velocity is negated; above hi it becomes hi and the velocity is negated; inside it is kept with the velocity unchanged |
| Game.AxisStep | game.py:83-109 | for one axis after integrating by vel*dt: the result lies in [lo, hi]; below the minimum the position is exactly the minimum and the velocity is negated; above the maximum likewise with the maximum; within bounds the position is old + v*dt with the velocity unchanged; the speed \|v'\| = \|v\| is preserved |
| Game.BallStep | game.py:83-109 | after a frame every ball coordinate lies in the room; kinetic energy is preserved (perfectly elastic); each axis is stepped against its own walls |
| Game.Simulate | game.py:71-109 | over any number of frames the kinetic energy is unchanged, and after at least one frame (or from a start inside the room) the ball lies in the room |
| Game.FloorBounceExample | game.py:84-91 | y = 5, vy = -30, dt = 1 with the floor at 0 gives y = 0, vy = 30 |
| Game.CornerHitExample | game.py:83-109 | a corner hit reflects X and Y separately in the same frame while Z moves freely |
| Game.AxesAreIndependent | game.py:83-109 | the new x, vx depend only on the old x, vx and dt; likewise for y and z |
| Game.ZeroStepKeepsBall | game.py:83-109 | with dt = 0 a ball inside the room is unchanged |
| Game.NegativeStepMovesBall | game.py:78-85 | a negative dt is not skipped: the start ball with dt = -1 moves to (-50, 180, 360) |
| Game.MyGame.constructor | game.py:55-65 | the ball and rocket fields take the configured start values, which lie in the room |
| Game.MyGame.Step | game.py:82-109 | the ball fields become BallStep of their old values, so the ball lies in the room; the rocket fields are not written |
| Game.MyGame.SetRocketPosition | game.py:121-127 | the rocket fields become exactly the arguments; the ball fields are unchanged |
| Detection.ClampIndex | detection.py:93-96 | min(max(0, p), n-1) lies in [0, n-1] for any p when n >= 1; it is p inside the range, 0 below and n-1 above |
| Detection.MapX | detection.py:100 | pixel column 0 gives MIN_X and column w gives MAX_X; the result lies in [MIN_X, MAX_X] when 0 <= px <= w, and outside it when px is outside [0, w] (for MIN_X < MAX_X) |
| Detection.MapY | detection.py:102 | pixel row 0 gives MAX_Y and row h gives MIN_Y; the result lies in [MIN_Y, MAX_Y] when 0 <= py <= h, and outside it when py is outside [0, h] (for MIN_Y < MAX_Y) |
| Detection.MapZ | detection.py:98 | depth 1 gives MIN_Z and depth 0 gives MAX_Z; depth in [0, 1] gives z in [MIN_Z, MAX_Z] |
| Detection.MapXMonotone | detection.py:100 | x is non-decreasing in the pixel column |
| Detection.MapYAntitone | detection.py:102 | y is non-increasing in the pixel row |
| Detection.MapZAntitone | detection.py:98 | z is non-increasing in the depth |
| Detection.Locate | detection.py:91-102 | for a wrist inside the frame, z comes from the depth at that very pixel; with a normalised depth map the result lies in the room if and only if the wrist lies in [0,w]x[0,h], since only the depth lookup is clamped |
| Detection.DetectHand3D | detection.py:51-104 | a failed read or no hand returns the previous coordinate exactly; a detection returns the mapped wrist position; from a previous coordinate in the room and an in-range capture the result lies in the room |
| Detection.DetectionIgnoresOld | detection.py:92-104 | on a detection all three coordinates are replaced together: the result does not depend on the previous coordinate |
| Detection.DetectIsIdempotent | detection.py:51-104 | feeding a result back with the same capture gives the same result (freeze and detection alike) |
| Detection.LocateXMonotone | detection.py:100 | moving the wrist right never decreases the rocket's x, even outside the frame |
| Detection.LocateYAntitone | detection.py:102 | moving the wrist down never increases the rocket's y |
| Detection.LocateZAntitone | detection.py:93-98 | for any wrist pixel, a larger depth value at the clamped lookup pixel never increases the rocket's z |
| Detection.TopLeftNearExample | detection.py:93-102 | pixel (0,0) of a 640x480 frame at depth 1 gives (-200, 200, 0) |
| Detection.BottomRightFarExample | detection.py:93-102 | pixel (640,480) of a 640x480 frame reads depth at row 479, column 639; at depth 0 it gives (200, 0, 600) |
| Detection.OutOfFrameLeavesRoom | detection.py:100-102 | X is not clamped: pixel (-64, 240) of a 640x480 frame gives x = -240, outside the room |
| Detection.FreezeExample | detection.py:53-56 | a failed read at (10, 20, 30) returns exactly (10, 20, 30) |
| Scheduler.Track | main.py:32-38 | the threaded rocket tuple lies in the room when it starts there and every capture is in range |
| Scheduler.TrackFreezesWithoutDetection | main.py:28-38 | if no tick detects a hand, the rocket is still at its start value |
| Scheduler.TrackIsMostRecentDetection | main.py:32-38 | the rocket holds the mapped value of the most recent tick that detected a hand |
| Scheduler.MissKeepsTrack | main.py:35-38 | a tick without a detection leaves the rocket exactly unchanged |
| Scheduler.DetectionTask | main.py:32-39 | one tick maps the capture with the previous tuple and writes the result into the rocket fields; the ball is not touched |
| Scheduler.Run | main.py:17-42 | the tuple starts at the game's rocket start fields; after every frame the rocket fields equal the threaded tuple, the ball equals the ball simulated over the elapsed times, and the ball lies in the room; with in-range captures the rocket lies in the room too |

## Left out

- Window, camera and background setup, model loading, and the `setPos` render calls with their y/z axis swap (game.py:28-52, 111-117): rendering collaborators.
- Wall-clock timing (game.py:68, 78-80): `time.time()` and the `last_time` field are not modelled. `Step` takes `dt` as a parameter, and `Run` takes one `dt` per frame.
- Camera read, image flip, colour conversion, hand-landmark inference, depth inference, interpolation, resize and normalisation (detection.py:20-39, 53, 58-63, 76-89). They are foreign code. A `Capture` stands for their output: a failed read, or a frame with its size, optional wrist pixel and depth map.
- The `int()` truncation of the landmark times the frame size (detection.py:72-73): the wrist pixel is an integer input.
- Detection.DetectHand3D: requires a frame of at least 1x1 pixels whose depth map has the frame's size, because a real camera frame and the resized depth map always have this shape. The `[0, 1]` range of the normalised depth is only a hypothesis of the range properties.
- Panda3D task-manager scheduling (game.py:71; main.py:41-42): `Run` runs the ball step and then the detection task in each frame. The two write disjoint fields, so their order does not change the result.
- Opening the camera, the exit when it cannot be opened, and its release (main.py:19-22, 43): I/O.
- Floating-point rounding: all quantities are mathematical reals.
- The frame rate `FPS` is imported but never drives timing (config.py:30; game.py:24; main.py:13), so only its value is stated.
- panda.py: a separate demo with an empty update function and no logic.
