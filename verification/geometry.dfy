/** Coordinate handling of code/perception.py: image pixels to rover-centred
    points (`rover_coords`), rotation, translation and scaling, and the
    truncate-then-clamp mapping to world-map cells (`pix_to_world`).

    The source computes rotations from a yaw in degrees with floating-point
    cosine and sine; here the rotation is given by its cosine and sine.
 */
module Geometry {

  /** A position in an image: row index, then column index. */
  datatype Pixel = Pixel(row: int, col: int)

  /** A rover-centred point: x forward, y to the left, in image pixels. */
  datatype Point = Point(x: real, y: real)

  /** A world-map cell. The source indexes its grids as `[y, x]`. */
  datatype Cell = Cell(x: int, y: int)

  /** Where the rover is and which way it faces. */
  datatype Pose = Pose(xpos: real, ypos: real, cosYaw: real, sinYaw: real)

  /** Every row has the same length, as in a two-dimensional array. */
  predicate Rectangular(img: seq<seq<int>>)
  {
    forall i :: 0 <= i < |img| ==> |img[i]| == Width(img)
  }

  /** `shape[1]` of the image. */
  function Width(img: seq<seq<int>>): nat
  {
    if |img| == 0 then 0 else |img[0]|
  }

  predicate IsSetPixel(img: seq<seq<int>>, p: Pixel)
  {
    0 <= p.row < |img| && 0 <= p.col < |img[p.row]| && img[p.row][p.col] != 0
  }

  predicate RowMajorBefore(a: Pixel, b: Pixel)
  {
    a.row < b.row || (a.row == b.row && a.col < b.col)
  }

  /** Strictly increasing in row-major order, hence without repetition. */
  predicate RowMajor(ps: seq<Pixel>)
  {
    forall k, l :: 0 <= k < l < |ps| ==> RowMajorBefore(ps[k], ps[l])
  }

  /** The nonzero entries of row `r`, left to right. */
  function RowNonzero(row: seq<int>, r: int): (ps: seq<Pixel>)
    ensures forall k :: 0 <= k < |ps| ==> ps[k].row == r && 0 <= ps[k].col < |row| && row[ps[k].col] != 0
    ensures RowMajor(ps)
    ensures forall c :: 0 <= c < |row| && row[c] != 0 ==> Pixel(r, c) in ps
    decreases |row|
  {
    if |row| == 0 then []
    else
      var c := |row| - 1;
      var front := RowNonzero(row[..c], r);
      assert forall k :: 0 <= k < |front| ==> front[k].col < c && row[front[k].col] == row[..c][front[k].col];
      assert forall c' :: 0 <= c' < c ==> row[c'] == row[..c][c'];
      front + (if row[c] != 0 then [Pixel(r, c)] else [])
  }

  /** numpy's `nonzero()`: the positions of the nonzero pixels in row-major
      order, each exactly once. */
  function Nonzero(img: seq<seq<int>>): (ps: seq<Pixel>)
    ensures forall k :: 0 <= k < |ps| ==> IsSetPixel(img, ps[k])
    ensures RowMajor(ps)
    ensures forall r, c :: 0 <= r < |img| && 0 <= c < |img[r]| && img[r][c] != 0 ==> Pixel(r, c) in ps
    decreases |img|
  {
    if |img| == 0 then []
    else
      var r := |img| - 1;
      var above := Nonzero(img[..r]);
      var last := RowNonzero(img[r], r);
      assert forall k :: 0 <= k < |above| ==> above[k].row < r && img[above[k].row] == img[..r][above[k].row];
      assert forall r' :: 0 <= r' < r ==> img[r'] == img[..r][r'];
      above + last
  }

  /** The pixel a rover-frame point came from. */
  function ToPixel(q: Point, height: int, width: int): Pixel
  {
    Pixel(height - q.x.Floor, (width as real / 2.0 - q.y).Floor)
  }

  /** A pixel in the rover frame: the origin is the bottom centre of the image. */
  function ToRoverFrame(p: Pixel, height: int, width: int): (q: Point)
    requires 0 <= p.row < height && 0 <= p.col < width
    ensures 1.0 <= q.x <= height as real
    ensures width as real / 2.0 - (width - 1) as real <= q.y <= width as real / 2.0
    ensures height as real - q.x == p.row as real && width as real / 2.0 - q.y == p.col as real
    ensures ToPixel(q, height, width) == p
  {
    Point((height - p.row) as real, width as real / 2.0 - p.col as real)
  }

  /** `rover_coords`: one rover-frame point per nonzero pixel, in the order of
      `nonzero()`. */
  function RoverCoords(img: seq<seq<int>>): (pts: seq<Point>)
    requires Rectangular(img)
    ensures |pts| == |Nonzero(img)|
    ensures forall k :: 0 <= k < |pts| ==> 1.0 <= pts[k].x <= |img| as real
    ensures forall k :: 0 <= k < |pts| ==>
              Width(img) as real / 2.0 - (Width(img) - 1) as real <= pts[k].y <= Width(img) as real / 2.0
    ensures forall k :: 0 <= k < |pts| ==>
              && pts[k].x == (|img| - Nonzero(img)[k].row) as real
              && pts[k].y == Width(img) as real / 2.0 - Nonzero(img)[k].col as real
    ensures forall k :: 0 <= k < |pts| ==> IsSetPixel(img, ToPixel(pts[k], |img|, Width(img)))
  {
    var ps := Nonzero(img);
    assert forall k :: 0 <= k < |ps| ==> 0 <= ps[k].row < |img| && 0 <= ps[k].col < Width(img);
    seq(|ps|, k requires 0 <= k < |ps| => ToRoverFrame(ps[k], |img|, Width(img)))
  }

  /** Mapping back recovers exactly the pixels `nonzero()` lists, so every
      nonzero pixel yields exactly one point. */
  lemma RoverCoordsInverse(img: seq<seq<int>>)
    requires Rectangular(img)
    ensures var pts := RoverCoords(img);
      forall k :: 0 <= k < |pts| ==> ToPixel(pts[k], |img|, Width(img)) == Nonzero(img)[k]
  {
  }

  /** `rotate_pix` with the cosine and sine of the yaw. */
  function Rotate(p: Point, cosYaw: real, sinYaw: real): (q: Point)
    ensures cosYaw * cosYaw + sinYaw * sinYaw == 1.0 ==> NormSquared(q) == NormSquared(p)
  {
    Point(p.x * cosYaw - p.y * sinYaw, p.x * sinYaw + p.y * cosYaw)
  }

  function NormSquared(p: Point): real
  {
    p.x * p.x + p.y * p.y
  }

  /** A rotation scales squared distance by cos² + sin², so a true rotation
      keeps it. */
  lemma RotateScalesDistance(p: Point, c: real, s: real)
    ensures NormSquared(Rotate(p, c, s)) == NormSquared(p) * (c * c + s * s)
  {
  }

  /** Rotating back by the opposite angle undoes a rotation. */
  lemma RotateInverse(p: Point, c: real, s: real)
    requires c * c + s * s == 1.0
    ensures Rotate(Rotate(p, c, s), c, -s) == p
  {
  }

  /** `translate_pix`: scale down, then shift to the rover's position. */
  function Translate(p: Point, xpos: real, ypos: real, scale: real): (q: Point)
    requires scale != 0.0
    ensures (q.x - xpos) * scale == p.x
    ensures (q.y - ypos) * scale == p.y
  {
    Point(p.x / scale + xpos, p.y / scale + ypos)
  }

  /** numpy's `int_` on a float: truncation toward zero. */
  function Trunc(v: real): (t: int)
    ensures v >= 0.0 ==> 0 <= t && t as real <= v < t as real + 1.0
    ensures v < 0.0 ==> t <= 0 && t as real - 1.0 < v <= t as real
  {
    if v >= 0.0 then v.Floor else -((-v).Floor)
  }

  /** numpy's `clip`: the maximum with `lo`, then the minimum with `hi`. */
  function ClipInt(v: int, lo: int, hi: int): (r: int)
    ensures lo <= hi ==> lo <= r <= hi
    ensures lo <= v <= hi ==> r == v
    ensures lo <= hi && v < lo ==> r == lo
    ensures lo <= hi && v > hi ==> r == hi
  {
    var atLeast := if v < lo then lo else v;
    if atLeast > hi then hi else atLeast
  }

  /** What `pix_to_world` does to one coordinate: negative values land on 0,
      values inside the map are truncated (not rounded), values at or past the
      last cell land on the last cell. */
  predicate AxisCell(v: real, worldSize: int, i: int)
  {
    && (v < 0.0 ==> i == 0)
    && (0.0 <= v < worldSize as real ==> i == v.Floor)
    && (v >= (worldSize - 1) as real ==> i == worldSize - 1)
  }

  function WorldPoint(p: Point, pose: Pose, scale: real): Point
    requires scale != 0.0
  {
    Translate(Rotate(p, pose.cosYaw, pose.sinYaw), pose.xpos, pose.ypos, scale)
  }

  /** `pix_to_world`: rotate, translate, truncate and clamp into the map. */
  function PixToWorld(p: Point, pose: Pose, worldSize: int, scale: real): (c: Cell)
    requires scale != 0.0
    ensures worldSize >= 1 ==> 0 <= c.x < worldSize && 0 <= c.y < worldSize
    ensures worldSize >= 1 ==>
              && AxisCell(WorldPoint(p, pose, scale).x, worldSize, c.x)
              && AxisCell(WorldPoint(p, pose, scale).y, worldSize, c.y)
  {
    var w := WorldPoint(p, pose, scale);
    Cell(ClipInt(Trunc(w.x), 0, worldSize - 1), ClipInt(Trunc(w.y), 0, worldSize - 1))
  }

  /** The rover's own point lands on the cell of its own position. */
  lemma OriginLandsOnRover(pose: Pose, worldSize: int, scale: real)
    requires scale != 0.0 && worldSize >= 1
    requires 0.0 <= pose.xpos < worldSize as real && 0.0 <= pose.ypos < worldSize as real
    ensures PixToWorld(Point(0.0, 0.0), pose, worldSize, scale) == Cell(pose.xpos.Floor, pose.ypos.Floor)
  {
  }
}
