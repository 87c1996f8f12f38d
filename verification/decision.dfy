/** Model of the wall-following decision controller of code/decision.py.

    The rover aggregate of the source is split into an immutable configuration,
    the per-frame inputs produced by perception, and the controller state that
    persists from one frame to the next. `DecisionStep` is the pure counterpart
    of `decision_step`.
 */
module Decision {

  datatype Option<T> = None | Some(value: T)

  /** The controller mode. The source stores the mode as a free-form string;
      the five labels it ever writes get their own constructor and any other
      string is carried verbatim in `Other`. */
  datatype Mode = FindWall | FollowWall | LostWall | DisruptedPath | Error | Other(name: string)

  /** The string the source uses for each mode. */
  function Label(m: Mode): string
  {
    match m
    case FindWall => "Find Wall"
    case FollowWall => "Follow Wall"
    case LostWall => "Lost wall"
    case DisruptedPath => "Disrupted Path"
    case Error => "Error"
    case Other(s) => s
  }

  predicate IsKnownLabel(s: string)
  {
    s == "Find Wall" || s == "Follow Wall" || s == "Lost wall" || s == "Disrupted Path" || s == "Error"
  }

  /** A mode value as the source could hold it: `Other` never hides a known label. */
  predicate Canonical(m: Mode)
  {
    m.Other? ==> !IsKnownLabel(m.name)
  }

  /** Reads a mode string; every string is accepted and printed back unchanged. */
  function ParseMode(s: string): (m: Mode)
    ensures Label(m) == s
    ensures Canonical(m)
    ensures m.Other? <==> !IsKnownLabel(s)
  {
    if s == "Find Wall" then FindWall
    else if s == "Follow Wall" then FollowWall
    else if s == "Lost wall" then LostWall
    else if s == "Disrupted Path" then DisruptedPath
    else if s == "Error" then Error
    else Other(s)
  }

  /** A mode as the source can hold it. The source keeps one string, so a
      known label is always its own constructor, never `Other`. */
  type ModeValue = m: Mode | Canonical(m) witness FindWall

  /** The modes `decision_step` has a branch for. */
  predicate Handled(m: Mode)
  {
    m.FindWall? || m.FollowWall? || m.LostWall? || m.DisruptedPath?
  }

  /** Run-wide settings of the rover object. Times are in seconds, angles in degrees. */
  datatype Config = Config(
    maxVel: real,            // max_vel
    throttleSet: real,       // throttle_set
    brakeSet: real,          // brake_set
    clearPathDist: real,     // clear_path
    steerGain: real,         // aggresive_steering_amplitude
    lostWallThreshold: real, // time_lost_wall_threshold
    maxDisruptedTime: real)  // max_time_mean_distance_less_than_thresh

  /** Actuator outputs. */
  datatype Command = Command(throttle: real, brake: real, steer: real)

  /** What perception and the host loop supply each frame. `navAngles` is
      `None` when the source's `nav_angles` is `None`; angles are in degrees. */
  datatype Frame = Frame(
    navDists: seq<real>,
    navAngles: Option<seq<real>>,
    wallOnLeft: bool,
    vel: real,
    totalTime: real)

  /** Controller state that persists across frames. */
  datatype Controller = Controller(
    mode: ModeValue,
    timeWithoutWall: real,   // time_without_seeing_wall
    timeDisrupted: real,     // time_mean_distance_less_than_thresh
    timeLast: real,          // time_last
    cmd: Command)

  const MaxSteer: real := 15.0
  const StoppedVel: real := 0.1
  const ErrorThrottle: real := 9.0

  predicate SteerInRange(c: Command)
  {
    -MaxSteer <= c.steer <= MaxSteer
  }

  /** Braking implies no throttle. */
  predicate BrakeExcludesThrottle(c: Command)
  {
    c.brake != 0.0 ==> c.throttle == 0.0
  }

  predicate ValidFrame(f: Frame)
  {
    f.navAngles.Some? ==> |f.navAngles.value| > 0
  }

  function Sum(s: seq<real>): real
  {
    if |s| == 0 then 0.0 else Sum(s[..|s| - 1]) + s[|s| - 1]
  }

  function Mean(s: seq<real>): real
    requires |s| > 0
  {
    Sum(s) / |s| as real
  }

  function Min(a: real, b: real): real { if a <= b then a else b }
  function Max(a: real, b: real): real { if a >= b then a else b }

  /** numpy's clip: the maximum with `lo`, then the minimum with `hi`. */
  function Clip(v: real, lo: real, hi: real): (r: real)
    requires lo <= hi
    ensures lo <= r <= hi
    ensures lo <= v <= hi ==> r == v
    ensures v < lo ==> r == lo
    ensures v > hi ==> r == hi
  {
    Min(Max(v, lo), hi)
  }

  /** `clear_path`: the mean navigable distance exceeds the threshold. The mean
      of an empty array is NaN in the source, and NaN compares false. */
  function ClearPath(dists: seq<real>, threshold: real): (clear: bool)
    ensures clear ==> |dists| > 0
    ensures clear ==> exists k :: 0 <= k < |dists| && dists[k] > threshold
    ensures |dists| > 0 && (forall k :: 0 <= k < |dists| ==> dists[k] > threshold) ==> clear
  {
    SumAtMost(dists, threshold);
    SumAbove(dists, threshold);
    |dists| > 0 && Mean(dists) > threshold
  }

  /** If no reading exceeds `t`, the sum stays within `t` per reading. */
  lemma {:induction false} SumAtMost(s: seq<real>, t: real)
    ensures (forall k :: 0 <= k < |s| ==> s[k] <= t) ==> Sum(s) <= t * |s| as real
    decreases |s|
  {
    if |s| > 0 && forall k :: 0 <= k < |s| ==> s[k] <= t {
      var front := s[..|s| - 1];
      assert forall k :: 0 <= k < |front| ==> front[k] == s[k];
      SumAtMost(front, t);
    }
  }

  /** If every reading exceeds `t`, so does the sum, per reading. */
  lemma {:induction false} SumAbove(s: seq<real>, t: real)
    ensures |s| > 0 && (forall k :: 0 <= k < |s| ==> s[k] > t) ==> Sum(s) > t * |s| as real
    decreases |s|
  {
    if |s| > 0 && forall k :: 0 <= k < |s| ==> s[k] > t {
      var front := s[..|s| - 1];
      assert forall k :: 0 <= k < |front| ==> front[k] == s[k];
      if |front| > 0 {
        SumAbove(front, t);
      }
    }
  }

  /** An independent reading of `clear_path` without division. */
  lemma ClearPathBySum(dists: seq<real>, threshold: real)
    ensures ClearPath(dists, threshold) <==> |dists| > 0 && Sum(dists) > threshold * |dists| as real
  {
    if |dists| > 0 {
      var n := |dists| as real;
      assert Sum(dists) == Mean(dists) * n;
      assert Mean(dists) > threshold <==> Mean(dists) * n > threshold * n;
    }
  }

  /** `go_forward`: release the brake, throttle up below the speed cap, steer
      toward the mean navigable angle, or hard left when no wall is on the left. */
  function GoForward(cfg: Config, vel: real, navAngles: seq<real>, wallOnLeft: bool): (c: Command)
    requires |navAngles| > 0
    ensures c.brake == 0.0
    ensures vel < cfg.maxVel ==> c.throttle == cfg.throttleSet
    ensures vel >= cfg.maxVel ==> c.throttle == 0.0
    ensures SteerInRange(c)
    ensures !wallOnLeft ==> c.steer == MaxSteer
    ensures wallOnLeft && -MaxSteer <= Mean(navAngles) * cfg.steerGain <= MaxSteer ==>
              c.steer == Mean(navAngles) * cfg.steerGain
    ensures wallOnLeft && Mean(navAngles) * cfg.steerGain > MaxSteer ==> c.steer == MaxSteer
    ensures wallOnLeft && Mean(navAngles) * cfg.steerGain < -MaxSteer ==> c.steer == -MaxSteer
  {
    var throttle := if vel < cfg.maxVel then cfg.throttleSet else 0.0;
    var steer := Clip(Mean(navAngles) * cfg.steerGain, -MaxSteer, MaxSteer);
    Command(throttle, 0.0, if wallOnLeft then steer else MaxSteer)
  }

  /** `stop`: no throttle, the configured brake, wheels straight. */
  function Stop(cfg: Config): (c: Command)
    ensures c.throttle == 0.0 && c.brake == cfg.brakeSet && c.steer == 0.0
    ensures SteerInRange(c) && BrakeExcludesThrottle(c)
  {
    Command(0.0, cfg.brakeSet, 0.0)
  }

  /** The search turn of "Lost wall" (`left`) and "Disrupted Path" (right):
      `stop` followed by brake release and a full turn. */
  function SearchTurn(cfg: Config, left: bool): (c: Command)
    ensures c.throttle == 0.0 && c.brake == 0.0
    ensures c.steer == (if left then MaxSteer else -MaxSteer)
  {
    Stop(cfg).(brake := 0.0, steer := if left then MaxSteer else -MaxSteer)
  }

  /** `decision_step`. */
  function DecisionStep(cfg: Config, r: Controller, f: Frame): (r': Controller)
    requires ValidFrame(f)
    // every command the step writes steers within range and never brakes
    // under throttle; a frame that writes none keeps the previous command
    ensures r'.cmd != r.cmd ==> SteerInRange(r'.cmd) && BrakeExcludesThrottle(r'.cmd)
    ensures SteerInRange(r.cmd) ==> SteerInRange(r'.cmd)
    ensures BrakeExcludesThrottle(r.cmd) ==> BrakeExcludesThrottle(r'.cmd)
    // the Error gate
    ensures f.navAngles.None? ==>
              && r'.mode == Error
              && r'.cmd == Command(ErrorThrottle, 0.0, 0.0)
              && r'.timeWithoutWall == r.timeWithoutWall
              && r'.timeDisrupted == r.timeDisrupted
              && r'.timeLast == r.timeLast
    // a mode without a branch changes nothing
    ensures f.navAngles.Some? && !Handled(r.mode) ==> r' == r
    ensures f.navAngles.Some? && (r.mode == Error || !IsKnownLabel(Label(r.mode))) ==> r' == r
    // only the named transitions move the mode
    ensures r'.mode != r.mode ==>
              || r'.mode == Error
              || (r.mode == FindWall && r'.mode == FollowWall)
              || (r.mode == FollowWall && (r'.mode == LostWall || r'.mode == DisruptedPath))
              || ((r.mode == LostWall || r.mode == DisruptedPath) && r'.mode == FollowWall)
  {
    match f.navAngles
    case None =>
      r.(mode := Error, cmd := Command(ErrorThrottle, 0.0, 0.0))
    case Some(angles) =>
      match r.mode
      case FindWall =>
        var driving := r.(cmd := GoForward(cfg, f.vel, angles, f.wallOnLeft));
        if f.wallOnLeft then driving.(mode := FollowWall, cmd := Stop(cfg)) else driving
      case FollowWall =>
        if r.timeWithoutWall > cfg.lostWallThreshold then
          r.(cmd := Stop(cfg), mode := LostWall)
        else
          var dt := f.totalTime - r.timeLast;
          var wallTimer := if !f.wallOnLeft then r.timeWithoutWall + dt else 0.0;
          var timed := r.(timeWithoutWall := wallTimer);
          var next :=
            if ClearPath(f.navDists, cfg.clearPathDist) then
              timed.(cmd := GoForward(cfg, f.vel, angles, f.wallOnLeft), timeDisrupted := 0.0)
            else
              var disrupted := r.timeDisrupted + dt;
              if disrupted > cfg.maxDisruptedTime then
                timed.(timeDisrupted := disrupted, cmd := Stop(cfg), mode := DisruptedPath)
              else
                timed.(timeDisrupted := disrupted);
          next.(timeLast := f.totalTime)
      case LostWall =>
        if f.vel > StoppedVel then r.(cmd := Stop(cfg))
        else if f.wallOnLeft then
          r.(cmd := Stop(cfg), mode := FollowWall, timeWithoutWall := 0.0, timeLast := f.totalTime)
        else r.(cmd := SearchTurn(cfg, true))
      case DisruptedPath =>
        if f.vel > StoppedVel then r.(cmd := Stop(cfg))
        else if ClearPath(f.navDists, cfg.clearPathDist) then
          r.(cmd := Stop(cfg), mode := FollowWall, timeDisrupted := 0.0, timeLast := f.totalTime)
        else r.(cmd := SearchTurn(cfg, false))
      case Error => r
      case Other(_) => r
  }

  /** "Find Wall": a wall on the left hands over to "Follow Wall" with the rover
      halted in that same frame; otherwise the rover keeps driving forward. */
  lemma FindWallTransition(cfg: Config, r: Controller, f: Frame)
    requires ValidFrame(f) && f.navAngles.Some? && r.mode == FindWall
    ensures var r' := DecisionStep(cfg, r, f);
      && (r'.mode == FollowWall <==> f.wallOnLeft)
      && (r'.mode == FindWall <==> !f.wallOnLeft)
      && (f.wallOnLeft ==> r'.cmd.throttle == 0.0 && r'.cmd.brake == cfg.brakeSet && r'.cmd.steer == 0.0)
      && (!f.wallOnLeft ==> r'.cmd == GoForward(cfg, f.vel, f.navAngles.value, false))
      && (!f.wallOnLeft ==> r'.cmd.brake == 0.0 && r'.cmd.steer == MaxSteer)
      && r'.timeWithoutWall == r.timeWithoutWall && r'.timeDisrupted == r.timeDisrupted
      && r'.timeLast == r.timeLast
  {
  }

  /** "Follow Wall" after too long without a wall: halt and go to "Lost wall";
      neither timer nor the timestamp is touched. */
  lemma FollowWallLosesWall(cfg: Config, r: Controller, f: Frame)
    requires ValidFrame(f) && f.navAngles.Some? && r.mode == FollowWall
    requires r.timeWithoutWall > cfg.lostWallThreshold
    ensures DecisionStep(cfg, r, f) == r.(mode := LostWall, cmd := Command(0.0, cfg.brakeSet, 0.0))
  {
  }

  /** "Follow Wall" while the wall timer is within its threshold: the timer
      rules and the disruption hand-over. */
  lemma FollowWallTimers(cfg: Config, r: Controller, f: Frame)
    requires ValidFrame(f) && f.navAngles.Some? && r.mode == FollowWall
    requires r.timeWithoutWall <= cfg.lostWallThreshold
    ensures var r' := DecisionStep(cfg, r, f);
      var dt := f.totalTime - r.timeLast;
      && (f.wallOnLeft ==> r'.timeWithoutWall == 0.0)
      && (!f.wallOnLeft ==> r'.timeWithoutWall == r.timeWithoutWall + dt)
      && (ClearPath(f.navDists, cfg.clearPathDist) ==> r'.timeDisrupted == 0.0 && r'.mode == FollowWall)
      && (!ClearPath(f.navDists, cfg.clearPathDist) ==> r'.timeDisrupted == r.timeDisrupted + dt)
      && (r'.mode == DisruptedPath <==>
            !ClearPath(f.navDists, cfg.clearPathDist) && r.timeDisrupted + dt > cfg.maxDisruptedTime)
      && (r'.mode == DisruptedPath ==> r'.cmd == Command(0.0, cfg.brakeSet, 0.0))
      && (!ClearPath(f.navDists, cfg.clearPathDist) && r.timeDisrupted + dt <= cfg.maxDisruptedTime ==>
            r'.mode == FollowWall && r'.cmd == r.cmd)
      && (ClearPath(f.navDists, cfg.clearPathDist) ==>
            r'.cmd == GoForward(cfg, f.vel, f.navAngles.value, f.wallOnLeft))
      && r'.mode != LostWall
      && r'.timeLast == f.totalTime
  {
  }

  /** "Lost wall": halt while moving; once stationary, a wall on the left
      resumes "Follow Wall" with a fresh wall timer, else turn left on the spot. */
  lemma LostWallBehaviour(cfg: Config, r: Controller, f: Frame)
    requires ValidFrame(f) && f.navAngles.Some? && r.mode == LostWall
    ensures var r' := DecisionStep(cfg, r, f);
      && (f.vel > StoppedVel ==> r' == r.(cmd := Command(0.0, cfg.brakeSet, 0.0)))
      && (f.vel <= StoppedVel && f.wallOnLeft ==>
            r' == r.(mode := FollowWall, timeWithoutWall := 0.0, timeLast := f.totalTime,
                     cmd := Command(0.0, cfg.brakeSet, 0.0)))
      && (f.vel <= StoppedVel && !f.wallOnLeft ==> r' == r.(cmd := Command(0.0, 0.0, MaxSteer)))
  {
  }

  /** "Disrupted Path": the mirror image of "Lost wall", keyed on a clear path
      and turning right. */
  lemma DisruptedPathBehaviour(cfg: Config, r: Controller, f: Frame)
    requires ValidFrame(f) && f.navAngles.Some? && r.mode == DisruptedPath
    ensures var r' := DecisionStep(cfg, r, f);
      && (f.vel > StoppedVel ==> r' == r.(cmd := Command(0.0, cfg.brakeSet, 0.0)))
      && (f.vel <= StoppedVel && ClearPath(f.navDists, cfg.clearPathDist) ==>
            r' == r.(mode := FollowWall, timeDisrupted := 0.0, timeLast := f.totalTime,
                     cmd := Command(0.0, cfg.brakeSet, 0.0)))
      && (f.vel <= StoppedVel && !ClearPath(f.navDists, cfg.clearPathDist) ==>
            r' == r.(cmd := Command(0.0, 0.0, -MaxSteer)))
  {
  }

  /** Once in "Error", a valid frame finds no branch: the code has no way out
      of "Error". */
  lemma ErrorIsAbsorbing(cfg: Config, r: Controller, f: Frame)
    requires ValidFrame(f) && r.mode == Error
    ensures DecisionStep(cfg, r, f).mode == Error
  {
  }

  /** The controller over a sequence of frames, one `decision_step` each. */
  function Run(cfg: Config, r: Controller, frames: seq<Frame>): Controller
    requires Valid(frames)
    decreases |frames|
  {
    if |frames| == 0 then r else Run(cfg, DecisionStep(cfg, r, frames[0]), frames[1..])
  }

  predicate Valid(frames: seq<Frame>)
  {
    forall k :: 0 <= k < |frames| ==> ValidFrame(frames[k])
  }

  /** Steering stays in range and braking keeps excluding throttle over any
      number of frames. */
  lemma {:induction false} RunKeepsCommandInvariants(cfg: Config, r: Controller, frames: seq<Frame>)
    requires Valid(frames)
    requires SteerInRange(r.cmd) && BrakeExcludesThrottle(r.cmd)
    ensures SteerInRange(Run(cfg, r, frames).cmd)
    ensures BrakeExcludesThrottle(Run(cfg, r, frames).cmd)
    decreases |frames|
  {
    if |frames| > 0 {
      RunKeepsCommandInvariants(cfg, DecisionStep(cfg, r, frames[0]), frames[1..]);
    }
  }

  /** Frames that keep "Follow Wall" on a clear path without a wall in view. */
  predicate WallAbsentClear(cfg: Config, frames: seq<Frame>)
  {
    forall k :: 0 <= k < |frames| ==>
      && frames[k].navAngles.Some? && |frames[k].navAngles.value| > 0
      && !frames[k].wallOnLeft
      && ClearPath(frames[k].navDists, cfg.clearPathDist)
  }

  /** While the wall stays out of view on a clear path, the wall timer adds
      up the elapsed time since the last decision: the per-frame deltas
      telescope to the last frame's time minus the starting timestamp. */
  lemma {:induction false} WallTimerTelescopes(cfg: Config, r: Controller, frames: seq<Frame>)
    requires r.mode == FollowWall && |frames| > 0
    requires WallAbsentClear(cfg, frames)
    requires r.timeWithoutWall <= cfg.lostWallThreshold
    requires forall k :: 0 <= k < |frames| - 1 ==>
               r.timeWithoutWall + (frames[k].totalTime - r.timeLast) <= cfg.lostWallThreshold
    ensures Valid(frames)
    ensures var r' := Run(cfg, r, frames);
      && r'.mode == FollowWall
      && r'.timeWithoutWall == r.timeWithoutWall + (frames[|frames| - 1].totalTime - r.timeLast)
      && r'.timeLast == frames[|frames| - 1].totalTime
      && r'.timeDisrupted == 0.0
    decreases |frames|
  {
    var f := frames[0];
    var next := DecisionStep(cfg, r, f);
    FollowWallTimers(cfg, r, f);
    assert next.mode == FollowWall;
    assert next.timeWithoutWall == r.timeWithoutWall + (f.totalTime - r.timeLast);
    assert next.timeLast == f.totalTime;
    if |frames| > 1 {
      var rest := frames[1..];
      assert WallAbsentClear(cfg, rest) by {
        forall k | 0 <= k < |rest| ensures rest[k] == frames[k + 1] { }
      }
      forall k | 0 <= k < |rest| - 1
        ensures next.timeWithoutWall + (rest[k].totalTime - next.timeLast) <= cfg.lostWallThreshold
      {
        assert rest[k] == frames[k + 1];
      }
      WallTimerTelescopes(cfg, next, rest);
    }
  }

  /** Spelled out over a run: after frames without a wall whose elapsed time
      exceeds the wall-loss threshold, one more valid frame puts the rover in
      "Lost wall". */
  lemma {:induction false} WallLossLeadsToLostWall(cfg: Config, r: Controller, frames: seq<Frame>, g: Frame)
    requires r.mode == FollowWall && |frames| > 0
    requires WallAbsentClear(cfg, frames)
    requires r.timeWithoutWall <= cfg.lostWallThreshold
    requires forall k :: 0 <= k < |frames| - 1 ==>
               r.timeWithoutWall + (frames[k].totalTime - r.timeLast) <= cfg.lostWallThreshold
    requires r.timeWithoutWall + (frames[|frames| - 1].totalTime - r.timeLast) > cfg.lostWallThreshold
    requires ValidFrame(g) && g.navAngles.Some?
    ensures Valid(frames + [g])
    ensures Run(cfg, r, frames + [g]).mode == LostWall
  {
    WallTimerTelescopes(cfg, r, frames);
    RunAppend(cfg, r, frames, [g]);
    var mid := Run(cfg, r, frames);
    assert Run(cfg, mid, [g]) == DecisionStep(cfg, mid, g);
  }

  lemma {:induction false} RunAppend(cfg: Config, r: Controller, a: seq<Frame>, b: seq<Frame>)
    requires Valid(a) && Valid(b)
    ensures Valid(a + b)
    ensures Run(cfg, r, a + b) == Run(cfg, Run(cfg, r, a), b)
    decreases |a|
  {
    assert Valid(a + b) by {
      forall k | 0 <= k < |a + b| ensures ValidFrame((a + b)[k]) {
        if k < |a| { assert (a + b)[k] == a[k]; } else { assert (a + b)[k] == b[k - |a|]; }
      }
    }
    if |a| > 0 {
      assert (a + b)[0] == a[0];
      assert (a + b)[1..] == a[1..] + b;
      RunAppend(cfg, DecisionStep(cfg, r, a[0]), a[1..], b);
    } else {
      assert a + b == b;
    }
  }
}
