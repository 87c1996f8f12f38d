# Rover decision controller and perception grid, in Dafny

This project models two sequential pieces of a simulated rover's software.

1. **The wall-following decision controller** (`decision_step` and its helpers).
   It is a finite-state machine over a mode label with four working modes:
   "Find Wall", "Follow Wall", "Lost wall" and "Disrupted Path". An "Error" gate
   applies when no navigable angles are available. The controller keeps two
   elapsed-time accumulators and a last-decision timestamp. It turns each
   frame's navigable distances and angles, the `wall_on_left` flag and the
   velocity into throttle, brake and steer.
2. **The integer and structural parts of the perception pipeline**, in this order:
   - the per-pixel threshold masks;
   - the mapping from image pixels to rover-centred points;
   - the translate, truncate and clamp step into world cells;
   - the range and field-of-view filters;
   - the vote grid that turns noisy per-frame hits into a stable rendered map.

Modules:

- `Decision` (decision.dfy): the `Mode`, `Config`, `Frame`, `Controller` and
  `Command` datatypes, `ClearPath`, `GoForward`, `Stop` and `DecisionStep`.
  It also holds the per-mode transition lemmas and the lemmas that run the
  controller over several frames.
- `Threshold` (threshold.dfy): `color_thresh`, `bw_thresh`, the structural part
  of `rock_thresh`, `cut_top_of_colored_image`, the obstacle inversion, and the
  three masks taken before rectification.
- `Geometry` (geometry.dfy): numpy `nonzero`, `rover_coords`, rotation,
  `translate_pix`, truncation toward zero, `clip`, and `pix_to_world`.
- `Projection` (projection.dfy): the rock filter, which drops points, and the
  navigable/obstacle filter, which zeroes points. Also the projection of the
  surviving points to world cells.
- `WorldMap` (worldmap.dfy): the grid as a map from cell to two vote counters
  and a colour. Also numpy's buffered fancy-index increment, the majority
  repaint, the rock painting, and lemmas over runs of frames.

The model follows the code as written. In particular:

- **"Error" is absorbing.** `decision_step` has no branch for "Error". Once in
  that mode, a frame with valid angles finds no branch, so nothing changes and
  the mode stays "Error" (`Decision.ErrorIsAbsorbing`).
- **The modes are the five labels the controller writes.** `decision.py` has
  no stuck check, no rock approach and no pickup request.
- **Rock pixels are the bright ones.** `rock_thresh` blacks out pixels whose
  grey level is below 90, so every pixel it keeps has grey level at least 90.
- **World cells are truncated.** `pix_to_world` truncates toward zero with
  `np.int_` and then clamps into the map.
- **The navigable and obstacle filters zero points.** They overwrite a
  rejected point by (0, 0), and that point is then counted on the rover's own
  cell. The rock filter drops rejected points instead. The two kinds of filter
  also differ at the boundaries:
  - rock filter: keeps distance² ≤ 80² and angle² < 30²;
  - navigable/obstacle filters: reject distance² ≥ 80² or angle² > 30².
- **A hit cell gains one vote per frame.** numpy's buffered `+= 1` adds one
  vote per distinct hit cell, however many points land on that cell.
- **One "Follow Wall" frame writes no command.** When the path is not clear
  and the disruption timer is still under its limit, no actuator value is
  written, so the previous command stays. The steering bound and the
  brake/throttle exclusivity are therefore proved in two forms:
  - for every command a step writes;
  - as invariants kept from one frame to the next.
- **A mode is one string.** The controller's mode is a `ModeValue`: a known
  label is always its own constructor, and `Other` carries only strings the
  controller has no branch for, as comparing the string does in the source.

## Model

| member | source | states |
|---|---|---|
| `Decision.ParseMode` | code/decision.py:35-92 | Every mode string reads to a mode that prints back to the same string. Exactly the five labels the controller writes get their own constructor. |
| `Decision.Clip` | code/decision.py:21 | numpy `clip` with ordered bounds: the result lies within them, equals the input inside them, and is the nearer bound outside. |
| `Decision.ClearPath` | code/decision.py:7-11 | An empty list of distances (a NaN mean in the source) is never clear. A clear path has at least one distance beyond the threshold. A non-empty list with every distance beyond the threshold is clear. |
| `Decision.ClearPathBySum` | code/decision.py:7-11 | The path is clear exactly when there are navigable distances and their sum exceeds threshold × count. An empty list (a NaN mean in the source) is never clear. |
| `Decision.GoForward` | code/decision.py:13-23 | The brake is released. Throttle is the cruise setting below the speed cap and 0 at or above it. Steer is always within ±15. Steer is 15 when no wall is on the left. Otherwise it is the gain-scaled mean angle, saturated at ±15. |
| `Decision.Stop` | code/decision.py:25-29 | Throttle 0, the configured brake, steer 0. |
| `Decision.SearchTurn` | code/decision.py:63-88 | The on-the-spot search turn: throttle 0, brake 0, steer +15 (left, "Lost wall") or -15 (right, "Disrupted Path"). |
| `Decision.DecisionStep` | code/decision.py:31-99 | Every command the step writes keeps steer in [-15, 15] and has throttle 0 whenever the brake is on. Both properties are also kept from frame to frame. Missing angles give mode "Error", throttle 9, brake 0, steer 0, with timers and timestamp untouched. A valid frame in a mode without a branch changes nothing. Modes change only along the listed transitions. |
| `Decision.FindWallTransition` | code/decision.py:35-40 | From "Find Wall", the next mode is "Follow Wall" iff the wall is on the left, with the rover halted in that frame. Otherwise it stays in "Find Wall" with exactly `go_forward`'s command for a rover with no wall on the left: brake released, steer hard left, throttle at the cruise setting below the speed cap and 0 at or above it. |
| `Decision.FollowWallLosesWall` | code/decision.py:43-45 | Once the wall timer exceeds its threshold, the step halts and enters "Lost wall". Nothing else changes: no timer and no timestamp. |
| `Decision.FollowWallTimers` | code/decision.py:47-61 | The wall timer resets when the wall is seen, else grows by the elapsed time. The disruption timer resets on a clear path, else grows by the same amount. "Disrupted Path" (halted) is entered iff the path is not clear and the disruption timer strictly exceeds its limit. Without a clear path and at or below the limit, the mode stays "Follow Wall" and the command is left as it was. A clear path issues `go_forward`'s command. "Lost wall" is never entered from this branch. The timestamp becomes the frame time. |
| `Decision.LostWallBehaviour` | code/decision.py:63-75 | While moving faster than 0.1, only halt. When stopped and the wall is seen: "Follow Wall", wall timer 0, timestamp = frame time. When stopped and no wall: throttle 0, brake 0, steer +15. |
| `Decision.DisruptedPathBehaviour` | code/decision.py:76-88 | Mirrors "Lost wall", keyed on a clear path: resume "Follow Wall" with the disruption timer reset, else turn right with steer -15. |
| `Decision.ErrorIsAbsorbing` | code/decision.py:34-89 | A valid frame in mode "Error" leaves the mode "Error": no branch leads out of it. |
| `Decision.RunKeepsCommandInvariants` | code/decision.py:13-95 | Over any number of frames, steer stays within ±15 and brake still excludes throttle. |
| `Decision.WallTimerTelescopes` | code/decision.py:47-61 | While the wall is out of view on a clear path, the wall timer adds up all elapsed time: after n frames it equals its start plus the last frame time minus the start timestamp. |
| `Decision.WallLossLeadsToLostWall` | code/decision.py:43-61 | While the wall is out of view on a clear path, once the accumulated time exceeds the threshold, the next valid frame puts the rover in "Lost wall". |
| `Threshold.ColorThresh` | code/perception.py:6-18 | The output has the image's shape and holds only 0 and 1. A pixel is 1 iff all three channels are strictly above their thresholds. |
| `Threshold.BwThresh` | code/perception.py:20-35 | Every channel is 1 iff the grey level is at least the threshold, and 0 otherwise. |
| `Threshold.RockThresh` | code/perception.py:37-52 | A pixel is a rock iff its grey level is at least 90 and its saturation exceeds 100. The output is a binary three-channel mask. |
| `Threshold.RocksAreBright` | code/perception.py:37-52 | Every rock pixel passes the grey threshold of 90. |
| `Threshold.SliceStop` | code/perception.py:142 | The end of the Python slice `[:k]` on n rows: k clamped to n, or n + k (at least 0) for negative k. |
| `Threshold.CutTop` | code/perception.py:140-143 | Rows before the slice end of `[:pixels_to_cut]` are black. Every other pixel is unchanged. The input is not altered (a new image is returned). |
| `Threshold.Invert` | code/perception.py:150-152 | The obstacle mask is binary: 1 exactly where the grey mask is not positive. |
| `Threshold.InvertInvolution` | code/perception.py:150-152 | Inverting a binary mask twice gives it back. |
| `Threshold.Channel0` | code/perception.py:148-149 | `img[:,:,0]`: same shape, and each entry is the pixel's first channel. |
| `Threshold.BwThreshChannel0` | code/perception.py:146-149 | Channel 0 of the grey mask is binary, and 1 exactly where the grey level reaches the threshold. |
| `Threshold.NavigableMask` | code/perception.py:166-168 | A binary mask with the image's shape. In the first 60 rows a pixel is set iff black reaches grey 150. Below them, iff its grey level reaches 150. |
| `Threshold.ObstacleMask` | code/perception.py:146-152 | A binary mask with the image's shape, set iff the pixel's grey level is below 150. |
| `Threshold.RockMask` | code/perception.py:116-120 | A binary mask with the image's shape. A pixel is set iff it is below the first 60 rows, its grey level is at least 90 and its saturation exceeds 100. |
| `Threshold.SkyIsCut` | code/perception.py:118-119 | The first 60 rows are never navigable and never rock. Below them, a pixel is navigable iff its grey level reaches 150. |
| `Threshold.ObstacleIsComplement` | code/perception.py:145-152 | Before rectification, a pixel is an obstacle iff its grey level is below 150. |
| `Geometry.RowNonzero` | code/perception.py:58 | The nonzero positions of one row, strictly left to right, none missing. |
| `Geometry.Nonzero` | code/perception.py:58 | numpy `nonzero()`: every listed position holds a nonzero pixel, the list is strictly row-major (no repeats), and every nonzero pixel is listed. |
| `Geometry.ToRoverFrame` | code/perception.py:61-62 | A pixel (row, col) of an h × w image maps exactly to x = h − row, which lies in [1, h], and y = w/2 − col. Mapping back recovers the pixel. |
| `Geometry.RoverCoords` | code/perception.py:56-63 | There is one point per nonzero pixel, in `nonzero()` order. The k-th point is exactly x = h − row, y = w/2 − col of the k-th nonzero pixel. Each point has 1 ≤ x ≤ height and w/2 − (w−1) ≤ y ≤ w/2. |
| `Geometry.RoverCoordsInverse` | code/perception.py:56-63 | Mapping the k-th point back to a pixel gives exactly the k-th nonzero position. |
| `Geometry.Rotate` | code/perception.py:76-83 | With cos² + sin² = 1, rotation keeps the squared distance from the rover. |
| `Geometry.RotateScalesDistance` | code/perception.py:77-84 | Rotation scales squared distance by cos² + sin². |
| `Geometry.RotateInverse` | code/perception.py:77-84 | Rotating back by the opposite angle restores the point. |
| `Geometry.Translate` | code/perception.py:86-91 | Undoing the shift and the scaling recovers the input point. |
| `Geometry.Trunc` | code/perception.py:102-103 | `np.int_` truncates toward zero: the result has the input's sign and lies within 1 of it, on the side of zero. |
| `Geometry.ClipInt` | code/perception.py:102-103 | With ordered bounds, the result lies within them. It equals the input inside them, `lo` below them and `hi` above them. |
| `Geometry.PixToWorld` | code/perception.py:96-105 | The cell lies inside [0, world_size − 1]. On each axis: a negative world coordinate gives 0, one inside the map gives its floor (truncation, not rounding), one at or past the last cell gives the last cell. |
| `Geometry.OriginLandsOnRover` | code/perception.py:96-105 | The point (0, 0) maps to the cell of the rover's own position. |
| `Projection.Keep` | code/perception.py:128-135 | Mask selection keeps each passing point as often as it occurs in the input and no other point: a point is in the result iff it is in the input and passes. So no point is added or duplicated. |
| `Projection.ZeroWhere` | code/perception.py:155-162 | Mask assignment keeps the count: rejected points become (0, 0), the others are unchanged. |
| `Projection.KeepTwice` | code/perception.py:128-135 | Two successive selections equal one selection by the conjunction. |
| `Projection.RockFilter` | code/perception.py:126-133 | Each point is kept as often as it occurs iff distance² ≤ 80² and angle² < 30². No other point appears. |
| `Projection.TerrainFilter` | code/perception.py:171-179 | The list keeps its length. The k-th point stays iff distance² < 80² and angle² ≤ 30², and becomes (0, 0) otherwise. Lines 155-162 apply the same filter to obstacles. |
| `Projection.RockFilterSelects` | code/perception.py:127-135 | The rock filter equals one mask selection by distance² ≤ 80² and angle² < 30². It keeps exactly those points and drops all others. |
| `Projection.TerrainFilterPointwise` | code/perception.py:172-179 | The navigable/obstacle filter keeps every point's slot. A point stays iff distance² < 80² and angle² ≤ 30²; otherwise it becomes (0, 0). |
| `Projection.RangeBoundary` | code/perception.py:128-155 | A point exactly 80 pixels out on the axis is kept by the rock filter but zeroed by the terrain filter. |
| `Projection.Project` | code/perception.py:135 | One world cell per point, the k-th being `pix_to_world` of the k-th point, each inside the map. |
| `Projection.RockCells` | code/perception.py:114-135 | At most one cell per rock pixel, all inside the map. |
| `Projection.ProjectMembers` | code/perception.py:135 | A projected list holds a cell iff some point of the list maps to it. |
| `Projection.RockProjection` | code/perception.py:125-135 | After the rock filter, a cell is projected iff some point with distance² ≤ 80² and angle² < 30² maps to it. |
| `Projection.RockCellsAre` | code/perception.py:114-135 | The rock cells of a rectified mask are exactly the cells of its rock points within range and inside the field of view. |
| `Projection.TerrainCells` | code/perception.py:165-180 | Exactly one cell per set pixel of the rectified mask, all inside the map. The k-th cell is `pix_to_world` of the k-th point when that point is within range and view, and the rover's own cell (the projection of (0, 0)) otherwise. The same function serves the obstacle mask (lines 145-163). |
| `Projection.RejectedLandOnRover` | code/perception.py:155-163 | Each point that the range or angle test rejects is counted on the rover's own cell. |
| `WorldMap.AddVotes` | code/perception.py:255-256 | Votes never decrease, and cells that are not hit are unchanged. |
| `WorldMap.FancyIncrement` | code/perception.py:255-256 | numpy's buffered gather-then-scatter `+= 1` adds exactly one vote to each distinct hit cell, however many times it is hit. It leaves other cells, the other channel and the colour alone. |
| `WorldMap.Repaint` | code/perception.py:258-266 | Votes never change. Cells with green ≥ 1, and ties, are untouched. Other cells with more obstacle votes turn (255,0,0), and those with more navigable votes turn (0,0,255). |
| `WorldMap.PaintRocks` | code/perception.py:268-270 | Votes never change. Every rock cell becomes (0,255,0) and is therefore marked as a rock. Every other cell is untouched. |
| `WorldMap.Consensus` | code/perception.py:258-266 | Cells with green ≥ 1 are untouched. Otherwise more obstacle votes paint (255,0,0), more navigable votes paint (0,0,255), and a tie keeps the cell as it was. |
| `WorldMap.UpdateMap` | code/perception.py:255-270 | After one frame: each counter grows by one iff the cell was hit. Rock cells hit this frame are (0,255,0). Other green cells keep their colour. Other cells follow the majority of their new votes, and keep their colour on a tie. |
| `WorldMap.RepaintIdempotent` | code/perception.py:258-266 | Repainting a second time changes nothing. |
| `WorldMap.VotesCountFrames` | code/perception.py:255-256 | Over any run of frames, each counter of a cell grows by exactly the number of frames that hit it, so it never decreases. |
| `WorldMap.RockIsTerminal` | code/perception.py:258-270 | A cell that carries green keeps green in every later frame and never turns obstacle red or navigable blue. |
| `WorldMap.FrameHits` | code/perception.py:227-252 | One frame's navigable and obstacle hits have one cell per set pixel, its rock hits at most one. Every hit is inside the 200 × 200 map. |
| `WorldMap.PerceptionMapStep` | code/perception.py:255-270 | The map block run in source order keeps every index inside the full 200 × 200 map. Its result is the functional `UpdateMap`. |

## Left out

- Perspective rectification (`perspect_transform`, OpenCV): the navigable, obstacle and rock masks enter the projection already rectified.
- Grey and HSV conversion (OpenCV): per-pixel functions passed as parameters. The model assumes only that black has grey level 0 (or below 90) and saturation 0.
- `rotate_pix` and `to_polar_coords` (floating-point trigonometry): rotation takes the cosine and sine of the yaw, and the `arctan2` bearing in degrees is a parameter.
- The calibration points, destination rectangle and call wiring of `perception_step` (lines 208-252): only the world size 200 and scale 10 are kept.
- The vision image display, and producing `nav_dists`, `nav_angles` and `wall_on_left`: these files do not produce them, so they are frame inputs.
- Floating-point arithmetic: reals are exact. Times, throttle and brake are `real`. Navigable angles arrive in degrees, so the 180/π conversion is not modelled.
- Integer widths: pixel values are unbounded; the source never adds to them. Vote counters: assumed wide enough never to wrap. The vote map is created outside `perception.py` and `decision.py`, so its element type is not part of this model.
- Trunc: does not model `np.int_` overflow for world coordinates beyond 64 bits.
- GoForward: requires a non-empty list of navigable angles. In the source the mean of an empty array is NaN. That NaN survives only when the wall is on the left: otherwise `go_forward` sets steer to 15. In "Find Wall" with the wall on the left, `stop` then sets it to 0. So a NaN steer reaches the command only in "Follow Wall" on a clear path with the wall on the left.
- DecisionStep: requires, through `ValidFrame`, that angles, when present, are non-empty, in every mode. Only "Find Wall" and "Follow Wall" on a clear path read their mean, through `go_forward`. So the requirement also leaves out well-defined behaviour with empty angles: "Lost wall", "Disrupted Path" and "Follow Wall" without a clear path never read the mean. For example, "Disrupted Path" with no navigable pixels turns right in the source.
- Translate: requires a non-zero scale. The source always passes 10.
- Stuck detection, rock approach and sample pickup: they are not in this revision of the code.
