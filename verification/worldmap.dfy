/** The vote grid and the consensus repaint at the end of `perception_step`
    in code/perception.py.

    Each world cell carries two vote counters (obstacle, navigable), which
    only ever grow, and the colour of the rendered map. After the votes of a
    frame are added, every cell that is not marked as a rock is repainted red
    (obstacle) or blue (navigable) by majority; a tie keeps its colour. Rock
    cells hit in the frame are then painted green, and a cell with any green
    is never repainted again.
 */
module WorldMap {
  import opened Geometry
  import Threshold
  import Projection

  type Rgb = Threshold.Rgb

  datatype CellState = CellState(obstacleVotes: nat, navigableVotes: nat, colour: Rgb)

  /** The world map: `map_count` and `worldmap` side by side, per cell. */
  type Grid = map<Cell, CellState>

  datatype Channel = ObstacleChannel | NavigableChannel

  const Red: Rgb := Threshold.Rgb(255, 0, 0)
  const Green: Rgb := Threshold.Rgb(0, 255, 0)
  const Blue: Rgb := Threshold.Rgb(0, 0, 255)

  /** The cells hit by one frame's obstacle, navigable and rock points. */
  datatype Hits = Hits(obstacle: seq<Cell>, navigable: seq<Cell>, rock: seq<Cell>)

  function Votes(s: CellState, ch: Channel): nat
  {
    match ch
    case ObstacleChannel => s.obstacleVotes
    case NavigableChannel => s.navigableVotes
  }

  function WithVotes(s: CellState, ch: Channel, v: nat): CellState
  {
    match ch
    case ObstacleChannel => s.(obstacleVotes := v)
    case NavigableChannel => s.(navigableVotes := v)
  }

  /** Everything about a cell except the votes of one channel. */
  predicate SameApartFrom(s: CellState, t: CellState, ch: Channel)
  {
    match ch
    case ObstacleChannel => s.navigableVotes == t.navigableVotes && s.colour == t.colour
    case NavigableChannel => s.obstacleVotes == t.obstacleVotes && s.colour == t.colour
  }

  function Bump(hit: bool): nat
  {
    if hit then 1 else 0
  }

  /** The effect of `map_count[ys, xs, ch] += 1`: one vote for every cell that
      appears among the hits, however often it appears. */
  function AddVotes(g: Grid, hits: seq<Cell>, ch: Channel): (g': Grid)
    ensures g'.Keys == g.Keys
    ensures forall c :: c in g ==> Votes(g'[c], ch) >= Votes(g[c], ch)
    ensures forall c :: c in g && c !in hits ==> g'[c] == g[c]
  {
    map c | c in g :: WithVotes(g[c], ch, Votes(g[c], ch) + Bump(c in hits))
  }

  /** numpy's buffered fancy-index increment, step by step: first every hit
      reads its cell's count plus one, then the results are written back in
      order, so repeated cells write the same value again. The outcome is one
      vote per distinct hit cell. */
  method FancyIncrement(g: Grid, hits: seq<Cell>, ch: Channel) returns (g': Grid)
    requires forall k :: 0 <= k < |hits| ==> hits[k] in g
    ensures g'.Keys == g.Keys
    ensures forall c :: c in g ==> Votes(g'[c], ch) == Votes(g[c], ch) + Bump(c in hits)
    ensures forall c :: c in g ==> SameApartFrom(g'[c], g[c], ch)
    ensures g' == AddVotes(g, hits, ch)
  {
    var gathered := seq(|hits|, k requires 0 <= k < |hits| => Votes(g[hits[k]], ch) + 1);
    g' := g;
    var k := 0;
    while k < |hits|
      invariant 0 <= k <= |hits|
      invariant g'.Keys == g.Keys
      invariant forall c :: c in g ==> Votes(g'[c], ch) == Votes(g[c], ch) + Bump(c in hits[..k])
      invariant forall c :: c in g ==> SameApartFrom(g'[c], g[c], ch)
    {
      assert hits[..k + 1] == hits[..k] + [hits[k]];
      g' := g'[hits[k] := WithVotes(g'[hits[k]], ch, gathered[k])];
      k := k + 1;
    }
    assert hits[..k] == hits;
    var expected := AddVotes(g, hits, ch);
    forall c | c in g ensures g'[c] == expected[c] {
      match ch
      case ObstacleChannel =>
      case NavigableChannel =>
    }
  }

  /** A cell carries some green: it has been marked as a rock. */
  predicate RockConfirmed(s: CellState)
  {
    s.colour.g >= 1
  }

  /** The consensus rule for one cell. */
  function Consensus(s: CellState): (t: CellState)
    ensures t.obstacleVotes == s.obstacleVotes && t.navigableVotes == s.navigableVotes
    ensures RockConfirmed(s) ==> t == s
    ensures !RockConfirmed(s) && s.obstacleVotes > s.navigableVotes ==> t.colour == Red
    ensures !RockConfirmed(s) && s.navigableVotes > s.obstacleVotes ==> t.colour == Blue
    ensures s.obstacleVotes == s.navigableVotes ==> t == s
  {
    if RockConfirmed(s) then s
    else if s.obstacleVotes > s.navigableVotes then s.(colour := Red)
    else if s.navigableVotes > s.obstacleVotes then s.(colour := Blue)
    else s
  }

  /** The `obstacle` and `naviagable` mask writes of `perception_step`. */
  function Repaint(g: Grid): (g': Grid)
    ensures g'.Keys == g.Keys
    ensures forall c :: c in g ==>
              && g'[c].obstacleVotes == g[c].obstacleVotes && g'[c].navigableVotes == g[c].navigableVotes
              && (RockConfirmed(g[c]) || g[c].obstacleVotes == g[c].navigableVotes ==> g'[c] == g[c])
              && (!RockConfirmed(g[c]) && g[c].obstacleVotes > g[c].navigableVotes ==> g'[c].colour == Red)
              && (!RockConfirmed(g[c]) && g[c].navigableVotes > g[c].obstacleVotes ==> g'[c].colour == Blue)
  {
    map c | c in g :: Consensus(g[c])
  }

  /** The rock writes: every rock cell becomes pure green. */
  function PaintRocks(g: Grid, rocks: seq<Cell>): (g': Grid)
    ensures g'.Keys == g.Keys
    ensures forall c :: c in g ==>
              && g'[c].obstacleVotes == g[c].obstacleVotes && g'[c].navigableVotes == g[c].navigableVotes
              && (c in rocks ==> g'[c].colour == Green && RockConfirmed(g'[c]))
              && (c !in rocks ==> g'[c] == g[c])
  {
    map c | c in g :: if c in rocks then g[c].(colour := Green) else g[c]
  }

  /** The map half of `perception_step`: votes, consensus, rocks. */
  function UpdateMap(g: Grid, hits: Hits): (g': Grid)
    ensures g'.Keys == g.Keys
    ensures forall c :: c in g ==>
              && g'[c].obstacleVotes == g[c].obstacleVotes + Bump(c in hits.obstacle)
              && g'[c].navigableVotes == g[c].navigableVotes + Bump(c in hits.navigable)
    ensures forall c :: c in g && c in hits.rock ==> g'[c].colour == Green
    ensures forall c :: c in g && c !in hits.rock && RockConfirmed(g[c]) ==> g'[c].colour == g[c].colour
    ensures forall c :: c in g && c !in hits.rock && !RockConfirmed(g[c]) ==>
              && (g'[c].obstacleVotes > g'[c].navigableVotes ==> g'[c].colour == Red)
              && (g'[c].navigableVotes > g'[c].obstacleVotes ==> g'[c].colour == Blue)
              && (g'[c].obstacleVotes == g'[c].navigableVotes ==> g'[c].colour == g[c].colour)
  {
    var voted := AddVotes(AddVotes(g, hits.obstacle, ObstacleChannel), hits.navigable, NavigableChannel);
    assert forall c :: c in g ==>
             voted[c] == g[c].(obstacleVotes := g[c].obstacleVotes + Bump(c in hits.obstacle),
                               navigableVotes := g[c].navigableVotes + Bump(c in hits.navigable));
    PaintRocks(Repaint(voted), hits.rock)
  }

  /** Repainting twice is repainting once: the consensus depends only on the
      votes and on the rock mark, which repainting keeps. */
  lemma RepaintIdempotent(g: Grid)
    ensures Repaint(Repaint(g)) == Repaint(g)
  {
  }

  /** The map after a sequence of frames. */
  function Run(g: Grid, frames: seq<Hits>): Grid
    decreases |frames|
  {
    if |frames| == 0 then g else Run(UpdateMap(g, frames[0]), frames[1..])
  }

  /** The number of frames among `frames` whose hits of channel `ch` include `c`. */
  function FramesHitting(frames: seq<Hits>, c: Cell, ch: Channel): nat
    decreases |frames|
  {
    if |frames| == 0 then 0
    else
      var hits := match ch case ObstacleChannel => frames[0].obstacle case NavigableChannel => frames[0].navigable;
      Bump(c in hits) + FramesHitting(frames[1..], c, ch)
  }

  /** Votes only accumulate: after any run, each counter of each cell has grown
      by exactly the number of frames that hit that cell. */
  lemma {:induction false} VotesCountFrames(g: Grid, frames: seq<Hits>, c: Cell)
    requires c in g
    ensures c in Run(g, frames)
    ensures Run(g, frames)[c].obstacleVotes == g[c].obstacleVotes + FramesHitting(frames, c, ObstacleChannel)
    ensures Run(g, frames)[c].navigableVotes == g[c].navigableVotes + FramesHitting(frames, c, NavigableChannel)
    ensures Run(g, frames)[c].obstacleVotes >= g[c].obstacleVotes
    ensures Run(g, frames)[c].navigableVotes >= g[c].navigableVotes
    decreases |frames|
  {
    if |frames| > 0 {
      VotesCountFrames(UpdateMap(g, frames[0]), frames[1..], c);
    }
  }

  /** A rock cell stays a rock: whatever the later frames, its colour is its
      colour at the start or pure green, never obstacle red or navigable blue. */
  lemma {:induction false} RockIsTerminal(g: Grid, frames: seq<Hits>, c: Cell)
    requires c in g && RockConfirmed(g[c])
    ensures c in Run(g, frames)
    ensures RockConfirmed(Run(g, frames)[c])
    ensures Run(g, frames)[c].colour == g[c].colour || Run(g, frames)[c].colour == Green
    ensures Run(g, frames)[c].colour != Red && Run(g, frames)[c].colour != Blue
    decreases |frames|
  {
    if |frames| > 0 {
      RockIsTerminal(UpdateMap(g, frames[0]), frames[1..], c);
    }
  }

  /** The map size and the pixels per map cell that `perception_step` uses. */
  const WorldSize: int := 200
  const Scale: real := 10.0

  /** Every cell of the 200 x 200 map is present. */
  predicate Full(g: Grid)
  {
    forall x, y :: 0 <= x < WorldSize && 0 <= y < WorldSize ==> Cell(x, y) in g
  }

  predicate InMap(c: Cell)
  {
    0 <= c.x < WorldSize && 0 <= c.y < WorldSize
  }

  /** The cells one frame hits, from the rectified navigable, obstacle and rock
      masks. */
  function FrameHits(nav: seq<seq<int>>, obs: seq<seq<int>>, rock: seq<seq<int>>,
                     bearing: Point -> real, pose: Pose): (h: Hits)
    requires Rectangular(nav) && Rectangular(obs) && Rectangular(rock)
    ensures |h.navigable| == |Nonzero(nav)| && |h.obstacle| == |Nonzero(obs)|
    ensures |h.rock| <= |Nonzero(rock)|
    ensures forall k :: 0 <= k < |h.obstacle| ==> InMap(h.obstacle[k])
    ensures forall k :: 0 <= k < |h.navigable| ==> InMap(h.navigable[k])
    ensures forall k :: 0 <= k < |h.rock| ==> InMap(h.rock[k])
  {
    Hits(Projection.TerrainCells(obs, bearing, pose, WorldSize, Scale),
         Projection.TerrainCells(nav, bearing, pose, WorldSize, Scale),
         Projection.RockCells(rock, bearing, pose, WorldSize, Scale))
  }

  /** Clipped hits always index the full map. */
  lemma HitsInFullMap(g: Grid, hits: seq<Cell>)
    requires Full(g)
    requires forall k :: 0 <= k < |hits| ==> InMap(hits[k])
    ensures forall k :: 0 <= k < |hits| ==> hits[k] in g
  {
  }

  /** The vote and consensus block of `perception_step` on the full map, in the
      order the source runs it: obstacle votes, navigable votes, repaint, rocks.
      Clipping keeps every index inside the map. */
  method PerceptionMapStep(g: Grid, nav: seq<seq<int>>, obs: seq<seq<int>>, rock: seq<seq<int>>,
                           bearing: Point -> real, pose: Pose) returns (g': Grid)
    requires Full(g)
    requires Rectangular(nav) && Rectangular(obs) && Rectangular(rock)
    ensures g'.Keys == g.Keys
    ensures g' == UpdateMap(g, FrameHits(nav, obs, rock, bearing, pose))
  {
    var h := FrameHits(nav, obs, rock, bearing, pose);
    HitsInFullMap(g, h.obstacle);
    var counted := FancyIncrement(g, h.obstacle, ObstacleChannel);
    assert Full(counted);
    HitsInFullMap(counted, h.navigable);
    counted := FancyIncrement(counted, h.navigable, NavigableChannel);
    g' := PaintRocks(Repaint(counted), h.rock);
  }
}
