/** Hand detection turned into a room coordinate (detection.py). The camera
    read, the hand-landmark detector and the depth estimator are collaborators:
    what they deliver for one tick is a `Capture`. What is modelled is the
    fallback to the previous coordinate and the mapping arithmetic. */
module Detection {
  import opened Config

  datatype Option<T> = None | Some(value: T)

  /** A pixel position in a frame, column `x` and row `y`; the source truncates
      the detector's normalised landmark times the frame size to an integer. */
  datatype Pixel = Pixel(x: int, y: int)

  /** What one tick of detection sees: either the camera read failed, or a
      frame `width` pixels wide and `height` pixels high, the wrist pixel of the
      first detected hand if any, and the depth map resized to the frame
      (`depth[row][column]`). */
  datatype Capture =
    | NoFrame
    | Frame(width: int, height: int, wrist: Option<Pixel>, depth: seq<seq<real>>)

  /** The depth map has `h` rows of `w` values each. */
  predicate DepthShaped(depth: seq<seq<real>>, w: int, h: int) {
    |depth| == h && forall row :: 0 <= row < |depth| ==> |depth[row]| == w
  }

  /** What the camera and the depth estimator guarantee of a frame: it is not
      empty and the depth map has the frame's size. */
  predicate WellFormed(c: Capture) {
    c.Frame? ==> c.width >= 1 && c.height >= 1 && DepthShaped(c.depth, c.width, c.height)
  }

  /** Every depth value lies in [0, 1], as min-max normalisation produces. */
  predicate UnitDepth(depth: seq<seq<real>>) {
    forall row, col :: 0 <= row < |depth| && 0 <= col < |depth[row]| ==> 0.0 <= depth[row][col] <= 1.0
  }

  /** The pixel lies in the closed rectangle [0, w] x [0, h]. */
  predicate InFrame(p: Pixel, w: int, h: int) {
    0 <= p.x <= w && 0 <= p.y <= h
  }

  /** The tick produces a new coordinate: a frame was read and a hand found. */
  predicate Detects(c: Capture) {
    c.Frame? && c.wrist.Some?
  }

  /** A detection that delivers a wrist inside the frame and a normalised
      depth map; a capture that detects nothing qualifies trivially. */
  predicate InRange(c: Capture) {
    Detects(c) ==> InFrame(c.wrist.value, c.width, c.height) && UnitDepth(c.depth)
  }

  /** The depth-lookup index `min(max(0, p), n - 1)`. */
  function ClampIndex(p: int, n: int): (i: int)
    requires n >= 1
    ensures 0 <= i < n
    ensures 0 <= p < n ==> i == p
    ensures p < 0 ==> i == 0
    ensures p >= n ==> i == n - 1
  {
    var low := if 0 > p then 0 else p;
    if low < n - 1 then low else n - 1
  }

  /** The fraction `t` of the length `k`. */
  function Scale(t: real, k: real): (r: real)
    ensures 0.0 <= t <= 1.0 && 0.0 <= k ==> 0.0 <= r <= k
    ensures t < 0.0 && 0.0 < k ==> r < 0.0
    ensures 1.0 < t && 0.0 < k ==> k < r
    ensures t == 0.0 ==> r == 0.0
    ensures t == 1.0 ==> r == k
  {
    ScaleBounds(t, k);
    t * k
  }

  /** Where the fraction `t * k` of a length lies, by where `t` lies. */
  lemma ScaleBounds(t: real, k: real)
    ensures 0.0 <= t <= 1.0 && 0.0 <= k ==> 0.0 <= t * k <= k
    ensures t < 0.0 && 0.0 < k ==> t * k < 0.0
    ensures 1.0 < t && 0.0 < k ==> k < t * k
  {
    if 0.0 <= t <= 1.0 && 0.0 <= k {
      assert (1.0 - t) * k >= 0.0;
    }
    if 1.0 < t && 0.0 < k {
      assert (t - 1.0) * k > 0.0;
    }
  }

  /** Scaling a non-negative length keeps the order of the fractions. */
  lemma ScaleMonotone(t1: real, t2: real, k: real)
    requires t1 <= t2 && 0.0 <= k
    ensures Scale(t1, k) <= Scale(t2, k)
  {
    assert (t2 - t1) * k >= 0.0;
  }

  /** `n / d` lies in [0, 1] exactly when `n` lies in [0, d]. */
  lemma FractionBounds(n: int, d: int)
    requires d >= 1
    ensures 0 <= n <= d ==> 0.0 <= n as real / d as real <= 1.0
    ensures n < 0 ==> n as real / d as real < 0.0
    ensures d < n ==> 1.0 < n as real / d as real
  {
  }

  /** Pixel column to room X: column 0 is `lo`, column `w` is `hi`, and a
      column outside [0, w] lands outside [lo, hi]. */
  function MapX(px: int, w: int, lo: real, hi: real): (x: real)
    requires w >= 1
    ensures px == 0 ==> x == lo
    ensures px == w ==> x == hi
    ensures lo <= hi && 0 <= px <= w ==> lo <= x <= hi
    ensures lo < hi && !(0 <= px <= w) ==> !(lo <= x <= hi)
  {
    FractionBounds(px, w);
    lo + Scale(px as real / w as real, hi - lo)
  }

  /** Pixel row to room Y, inverted because image rows grow downwards:
      row 0 is `hi`, row `h` is `lo`, and a row outside [0, h] lands outside
      [lo, hi]. */
  function MapY(py: int, h: int, lo: real, hi: real): (y: real)
    requires h >= 1
    ensures py == 0 ==> y == hi
    ensures py == h ==> y == lo
    ensures lo <= hi && 0 <= py <= h ==> lo <= y <= hi
    ensures lo < hi && !(0 <= py <= h) ==> !(lo <= y <= hi)
  {
    FractionBounds(py, h);
    hi - Scale(py as real / h as real, hi - lo)
  }

  /** Normalised depth to room Z, inverted: depth 1 (near) is `lo`, depth 0
      (far) is `hi`. */
  function MapZ(d: real, lo: real, hi: real): (z: real)
    ensures d == 1.0 ==> z == lo
    ensures d == 0.0 ==> z == hi
    ensures lo <= hi && 0.0 <= d <= 1.0 ==> lo <= z <= hi
  {
    lo + Scale(1.0 - d, hi - lo)
  }

  lemma MapXMonotone(p1: int, p2: int, w: int, lo: real, hi: real)
    requires w >= 1 && lo <= hi && p1 <= p2
    ensures MapX(p1, w, lo, hi) <= MapX(p2, w, lo, hi)
  {
    ScaleMonotone(p1 as real / w as real, p2 as real / w as real, hi - lo);
  }

  lemma MapYAntitone(p1: int, p2: int, h: int, lo: real, hi: real)
    requires h >= 1 && lo <= hi && p1 <= p2
    ensures MapY(p2, h, lo, hi) <= MapY(p1, h, lo, hi)
  {
    ScaleMonotone(p1 as real / h as real, p2 as real / h as real, hi - lo);
  }

  lemma MapZAntitone(d1: real, d2: real, lo: real, hi: real)
    requires lo <= hi && d1 <= d2
    ensures MapZ(d2, lo, hi) <= MapZ(d1, lo, hi)
  {
    ScaleMonotone(1.0 - d2, 1.0 - d1, hi - lo);
  }

  /** The mapping block run when a wrist was found: read the depth at the
      clamped wrist pixel, then map depth, column and row to Z, X and Y. Only
      the lookup is clamped; X and Y use the pixel as the detector gave it. */
  function Locate(p: Pixel, w: int, h: int, depth: seq<seq<real>>): (r: Vec3)
    requires w >= 1 && h >= 1 && DepthShaped(depth, w, h)
    ensures 0 <= p.x < w && 0 <= p.y < h ==> r.z == MapZ(depth[p.y][p.x], ROOM_MIN_Z, ROOM_MAX_Z)
    ensures InFrame(p, w, h) && UnitDepth(depth) ==> InRoom(r)
    ensures UnitDepth(depth) ==> (InRoom(r) <==> InFrame(p, w, h))
  {
    var d := depth[ClampIndex(p.y, h)][ClampIndex(p.x, w)];
    var z := MapZ(d, ROOM_MIN_Z, ROOM_MAX_Z);
    var x := MapX(p.x, w, ROOM_MIN_X, ROOM_MAX_X);
    var y := MapY(p.y, h, ROOM_MIN_Y, ROOM_MAX_Y);
    Vec3(x, y, z)
  }

  /** The coordinate a successful detection delivers. */
  function Mapped(c: Capture): Vec3
    requires WellFormed(c) && Detects(c)
  {
    Locate(c.wrist.value, c.width, c.height, c.depth)
  }

  /** One detection tick with the previous coordinate `prev`: keep it when
      the camera read fails or no hand is found, else replace it with the
      mapped wrist position. */
  function DetectHand3D(prev: Vec3, c: Capture): (r: Vec3)
    requires WellFormed(c)
    ensures !Detects(c) ==> r == prev
    ensures Detects(c) ==> r == Mapped(c)
    ensures InRoom(prev) && InRange(c) ==> InRoom(r)
  {
    match c
    case NoFrame => prev
    case Frame(w, h, wrist, depth) =>
      if wrist.Some? then Locate(wrist.value, w, h, depth) else prev
  }

  /** A detection replaces all three coordinates: the result does not depend on
      the previous coordinate at all. */
  lemma DetectionIgnoresOld(o1: Vec3, o2: Vec3, c: Capture)
    requires WellFormed(c) && Detects(c)
    ensures DetectHand3D(o1, c) == DetectHand3D(o2, c)
  {
  }

  /** Feeding a tick's result back with the same capture changes nothing. */
  lemma DetectIsIdempotent(prev: Vec3, c: Capture)
    requires WellFormed(c)
    ensures DetectHand3D(DetectHand3D(prev, c), c) == DetectHand3D(prev, c)
  {
  }

  /** Moving the wrist right never decreases X. */
  lemma LocateXMonotone(p1: Pixel, p2: Pixel, w: int, h: int, depth: seq<seq<real>>)
    requires w >= 1 && h >= 1 && DepthShaped(depth, w, h) && p1.x <= p2.x
    ensures Locate(p1, w, h, depth).x <= Locate(p2, w, h, depth).x
  {
    MapXMonotone(p1.x, p2.x, w, ROOM_MIN_X, ROOM_MAX_X);
  }

  /** Moving the wrist down never increases Y. */
  lemma LocateYAntitone(p1: Pixel, p2: Pixel, w: int, h: int, depth: seq<seq<real>>)
    requires w >= 1 && h >= 1 && DepthShaped(depth, w, h) && p1.y <= p2.y
    ensures Locate(p2, w, h, depth).y <= Locate(p1, w, h, depth).y
  {
    MapYAntitone(p1.y, p2.y, h, ROOM_MIN_Y, ROOM_MAX_Y);
  }

  /** A larger depth value at the clamped lookup pixel never increases Z,
      wherever the wrist lies. */
  lemma LocateZAntitone(p: Pixel, w: int, h: int, depth1: seq<seq<real>>, depth2: seq<seq<real>>)
    requires w >= 1 && h >= 1 && DepthShaped(depth1, w, h) && DepthShaped(depth2, w, h)
    requires depth1[ClampIndex(p.y, h)][ClampIndex(p.x, w)] <= depth2[ClampIndex(p.y, h)][ClampIndex(p.x, w)]
    ensures Locate(p, w, h, depth2).z <= Locate(p, w, h, depth1).z
  {
    var row, col := ClampIndex(p.y, h), ClampIndex(p.x, w);
    MapZAntitone(depth1[row][col], depth2[row][col], ROOM_MIN_Z, ROOM_MAX_Z);
  }

  /** Worked example: the top-left pixel of a 640 x 480 frame at depth 1 is
      the room's left, top, nearest point. */
  lemma TopLeftNearExample(depth: seq<seq<real>>)
    requires DepthShaped(depth, 640, 480) && depth[0][0] == 1.0
    ensures Locate(Pixel(0, 0), 640, 480, depth) == Vec3(-200.0, 200.0, 0.0)
  {
  }

  /** Worked example: the pixel (640, 480) lies just outside the last column
      and row, so depth is read at (479, 639); at depth 0 the result is the
      room's right, bottom, farthest point. */
  lemma BottomRightFarExample(depth: seq<seq<real>>)
    requires DepthShaped(depth, 640, 480) && depth[479][639] == 0.0
    ensures Locate(Pixel(640, 480), 640, 480, depth) == Vec3(200.0, 0.0, 600.0)
  {
  }

  /** Because X and Y are not clamped, a wrist left of the frame is placed
      left of the room. */
  lemma OutOfFrameLeavesRoom(depth: seq<seq<real>>)
    requires DepthShaped(depth, 640, 480) && UnitDepth(depth)
    ensures Locate(Pixel(-64, 240), 640, 480, depth).x == -240.0
    ensures !InRoom(Locate(Pixel(-64, 240), 640, 480, depth))
  {
  }

  /** Worked example of the freeze: a failed read leaves the marker where it was. */
  lemma FreezeExample()
    ensures DetectHand3D(Vec3(10.0, 20.0, 30.0), NoFrame) == Vec3(10.0, 20.0, 30.0)
  {
  }
}
