/** The range and field-of-view filters of `get_rock_world_coordinates`,
    `get_obstacle_world_coordinates` and `get_navigible_terrain_world_coordinates`
    in code/perception.py, and the projection of the surviving points to world
    cells.

    The rock filter drops rejected points. The navigable and obstacle filters
    keep every point but overwrite a rejected one by the origin (0, 0), which
    then lands on the rover's own cell. The bearing of a point, `arctan2(y, x)`
    in degrees, is a floating-point collaborator and comes in as a function.
 */
module Projection {
  import opened Geometry

  const MaxRange: real := 80.0
  const MaxAngle: real := 30.0
  const Origin: Point := Point(0.0, 0.0)

  /** The rock filter keeps a point within 80 pixels, boundary included, and
      strictly inside ±30 degrees. */
  predicate RockInRange(p: Point)
  {
    NormSquared(p) <= MaxRange * MaxRange
  }

  predicate RockInView(p: Point, bearing: Point -> real)
  {
    bearing(p) * bearing(p) < MaxAngle * MaxAngle
  }

  /** The zeroing filters reject a point at 80 pixels or more, or more than 30
      degrees off axis. */
  predicate TooFar(p: Point)
  {
    NormSquared(p) >= MaxRange * MaxRange
  }

  predicate TooWide(p: Point, bearing: Point -> real)
  {
    bearing(p) * bearing(p) > MaxAngle * MaxAngle
  }

  /** Boolean-mask indexing `xpix[mask]`: the points that pass, in order. */
  function Keep(pts: seq<Point>, pass: Point -> bool): (out: seq<Point>)
    ensures |out| <= |pts|
    ensures forall q :: multiset(out)[q] == if pass(q) then multiset(pts)[q] else 0
    ensures forall q :: q in out <==> q in pts && pass(q)
    decreases |pts|
  {
    if |pts| == 0 then []
    else
      var rest := Keep(pts[1..], pass);
      var head := if pass(pts[0]) then [pts[0]] else [];
      assert pts == [pts[0]] + pts[1..];
      assert multiset(head + rest) == multiset(head) + multiset(rest);
      head + rest
  }

  /** Mask assignment `xpix[mask] = 0; ypix[mask] = 0`: rejected points become
      the origin, the rest stay where they were. */
  function ZeroWhere(pts: seq<Point>, reject: Point -> bool): (out: seq<Point>)
    ensures |out| == |pts|
    ensures forall k :: 0 <= k < |pts| ==> (out[k] == pts[k] || out[k] == Origin)
    ensures forall k :: 0 <= k < |pts| && !reject(pts[k]) ==> out[k] == pts[k]
    ensures forall k :: 0 <= k < |pts| && reject(pts[k]) ==> out[k] == Origin
  {
    seq(|pts|, k requires 0 <= k < |pts| => if reject(pts[k]) then Origin else pts[k])
  }

  /** The angle pass of the rock filter as a mask predicate. */
  function RockView(bearing: Point -> real): Point -> bool
  {
    p => RockInView(p, bearing)
  }

  /** The rock filter: the range pass, then the angle pass on what is left. */
  function RockFilter(pts: seq<Point>, bearing: Point -> real): (out: seq<Point>)
    ensures forall q :: multiset(out)[q] == if RockInRange(q) && RockInView(q, bearing) then multiset(pts)[q] else 0
  {
    Keep(Keep(pts, RockInRange), RockView(bearing))
  }

  /** The navigable and obstacle filter: the range pass, then the angle pass on
      the already zeroed points. */
  function TerrainFilter(pts: seq<Point>, bearing: Point -> real): (out: seq<Point>)
    ensures |out| == |pts|
    ensures forall k :: 0 <= k < |pts| ==>
              out[k] == if !TooFar(pts[k]) && !TooWide(pts[k], bearing) then pts[k] else Origin
  {
    ZeroWhere(ZeroWhere(pts, TooFar), p => TooWide(p, bearing))
  }

  /** Two successive mask selections select with the conjunction. */
  lemma {:induction false} KeepTwice(pts: seq<Point>, a: Point -> bool, b: Point -> bool, both: Point -> bool)
    requires forall p :: both(p) == (a(p) && b(p))
    ensures Keep(Keep(pts, a), b) == Keep(pts, both)
    decreases |pts|
  {
    if |pts| > 0 {
      KeepTwice(pts[1..], a, b, both);
      if a(pts[0]) {
        assert Keep(pts, a) == [pts[0]] + Keep(pts[1..], a);
        assert Keep(pts, a)[1..] == Keep(pts[1..], a);
      } else {
        assert Keep(pts, a) == Keep(pts[1..], a);
      }
    }
  }

  /** The rock filter keeps exactly the points within range and inside the
      field of view, in their original order. */
  lemma RockFilterSelects(pts: seq<Point>, bearing: Point -> real)
    ensures RockFilter(pts, bearing) == Keep(pts, p => RockInRange(p) && RockInView(p, bearing))
    ensures forall k :: 0 <= k < |pts| && RockInRange(pts[k]) && RockInView(pts[k], bearing) ==>
              pts[k] in RockFilter(pts, bearing)
    ensures forall q :: q in RockFilter(pts, bearing) ==> q in pts && RockInRange(q) && RockInView(q, bearing)
  {
    var both := p => RockInRange(p) && RockInView(p, bearing);
    KeepTwice(pts, RockInRange, RockView(bearing), both);
    var out := Keep(pts, both);
    forall q | q in out ensures q in pts && RockInRange(q) && RockInView(q, bearing) {
      var k :| 0 <= k < |out| && out[k] == q;
      assert both(out[k]);
    }
    forall k | 0 <= k < |pts| && RockInRange(pts[k]) && RockInView(pts[k], bearing)
      ensures pts[k] in out
    {
      assert both(pts[k]);
    }
  }

  /** The terrain filter in one pass: a point survives exactly when it is
      within range and within the field of view; otherwise it is the origin. */
  lemma TerrainFilterPointwise(pts: seq<Point>, bearing: Point -> real)
    ensures |TerrainFilter(pts, bearing)| == |pts|
    ensures forall k :: 0 <= k < |pts| ==>
              TerrainFilter(pts, bearing)[k] ==
                if !TooFar(pts[k]) && !TooWide(pts[k], bearing) then pts[k] else Origin
  {
  }

  /** On the 80-pixel circle the two filters disagree: the rock filter keeps
      the point, the terrain filter sends it to the origin. */
  lemma RangeBoundary(p: Point, bearing: Point -> real)
    requires NormSquared(p) == MaxRange * MaxRange && bearing(p) == 0.0
    ensures RockFilter([p], bearing) == [p]
    ensures TerrainFilter([p], bearing) == [Origin]
  {
  }

  /** `pix_to_world` applied to every point. */
  function Project(pts: seq<Point>, pose: Pose, worldSize: int, scale: real): (cells: seq<Cell>)
    requires scale != 0.0
    ensures |cells| == |pts|
    ensures worldSize >= 1 ==> forall k :: 0 <= k < |cells| ==> 0 <= cells[k].x < worldSize && 0 <= cells[k].y < worldSize
    ensures forall k :: 0 <= k < |cells| ==> cells[k] == PixToWorld(pts[k], pose, worldSize, scale)
  {
    seq(|pts|, k requires 0 <= k < |pts| => PixToWorld(pts[k], pose, worldSize, scale))
  }

  /** The world cells of the rock mask after rectification. */
  function RockCells(warped: seq<seq<int>>, bearing: Point -> real, pose: Pose, worldSize: int, scale: real): (cells: seq<Cell>)
    requires Rectangular(warped) && scale != 0.0
    ensures |cells| <= |Nonzero(warped)|
    ensures worldSize >= 1 ==> forall k :: 0 <= k < |cells| ==> 0 <= cells[k].x < worldSize && 0 <= cells[k].y < worldSize
  {
    Project(RockFilter(RoverCoords(warped), bearing), pose, worldSize, scale)
  }

  /** A projected list holds exactly the cells of its points. */
  lemma ProjectMembers(pts: seq<Point>, pose: Pose, worldSize: int, scale: real, c: Cell)
    requires scale != 0.0
    ensures c in Project(pts, pose, worldSize, scale) <==>
              exists q :: q in pts && c == PixToWorld(q, pose, worldSize, scale)
  {
  }

  /** The rock filter followed by the projection, for any list of points. */
  lemma RockProjection(pts: seq<Point>, bearing: Point -> real, pose: Pose, worldSize: int, scale: real, c: Cell)
    requires scale != 0.0
    ensures c in Project(RockFilter(pts, bearing), pose, worldSize, scale) <==>
              exists p :: p in pts && RockInRange(p) && RockInView(p, bearing)
                          && c == PixToWorld(p, pose, worldSize, scale)
  {
  }

  /** The rock cells are exactly the projections of the rock points within
      range and inside the field of view. */
  lemma RockCellsAre(warped: seq<seq<int>>, bearing: Point -> real, pose: Pose, worldSize: int, scale: real, c: Cell)
    requires Rectangular(warped) && scale != 0.0
    ensures c in RockCells(warped, bearing, pose, worldSize, scale) <==>
              exists p :: p in RoverCoords(warped) && RockInRange(p) && RockInView(p, bearing)
                          && c == PixToWorld(p, pose, worldSize, scale)
  {
  }

  /** The world cells of the navigable or the obstacle mask after
      rectification: one cell per set pixel, the rejected ones on the rover. */
  function TerrainCells(warped: seq<seq<int>>, bearing: Point -> real, pose: Pose, worldSize: int, scale: real): (cells: seq<Cell>)
    requires Rectangular(warped) && scale != 0.0
    ensures |cells| == |Nonzero(warped)|
    ensures worldSize >= 1 ==> forall k :: 0 <= k < |cells| ==> 0 <= cells[k].x < worldSize && 0 <= cells[k].y < worldSize
    ensures forall k :: 0 <= k < |cells| ==>
              var p := RoverCoords(warped)[k];
              cells[k] == if !TooFar(p) && !TooWide(p, bearing) then PixToWorld(p, pose, worldSize, scale)
                          else PixToWorld(Origin, pose, worldSize, scale)
  {
    TerrainFilterPointwise(RoverCoords(warped), bearing);
    Project(TerrainFilter(RoverCoords(warped), bearing), pose, worldSize, scale)
  }

  /** Every rejected terrain point is counted on the rover's own cell. */
  lemma RejectedLandOnRover(warped: seq<seq<int>>, bearing: Point -> real, pose: Pose, worldSize: int, scale: real, k: int)
    requires Rectangular(warped) && scale != 0.0 && worldSize >= 1
    requires 0.0 <= pose.xpos < worldSize as real && 0.0 <= pose.ypos < worldSize as real
    requires 0 <= k < |Nonzero(warped)|
    requires var p := RoverCoords(warped)[k]; TooFar(p) || TooWide(p, bearing)
    ensures TerrainCells(warped, bearing, pose, worldSize, scale)[k] == Cell(pose.xpos.Floor, pose.ypos.Floor)
  {
    TerrainFilterPointwise(RoverCoords(warped), bearing);
    OriginLandsOnRover(pose, worldSize, scale);
  }
}
