/** The per-frame track structure the analytics read and write:
    `tracks['players'][t]` and `tracks['ball'][t]` are dictionaries from
    track id to track record. */
module Tracks {
  import opened Wrappers
  import opened Geometry
  import opened OrderedMap

  /** One player in one frame. `team` and `position` (the pitch position
      `position_transformed`) may be missing from the record; `hasBall` is
      `has_ball`, which reads as false when absent. */
  datatype PlayerTrack = PlayerTrack(bbox: Box, team: Option<int>, hasBall: bool, position: Option<Point>)

  /** One ball candidate in one frame; `speed` is written by the speed estimator. */
  datatype BallTrack = BallTrack(bbox: Box, speed: Option<real>)

  /** `tracks['players'][t]`: player id to record, in insertion order. */
  type Frame = seq<(int, PlayerTrack)>

  /** `tracks['ball'][t]`: ball track id to record. */
  type BallFrame = seq<(int, BallTrack)>

  datatype Tracks = Tracks(players: seq<Frame>, ball: seq<BallFrame>)

  /** The track id the pipeline gives the ball after interpolation. */
  const BallId: int := 1

  /** The position of the first record, in iteration order, that has the ball
      and whose id is not `excluded`. */
  function FirstHolder(f: Frame, excluded: Option<int>): (r: Option<nat>)
    ensures r.Some? ==> r.value < |f| && f[r.value].1.hasBall && Some(f[r.value].0) != excluded
    ensures r.Some? ==> forall j :: 0 <= j < r.value ==> !f[j].1.hasBall || Some(f[j].0) == excluded
    ensures r.None? <==> forall j :: 0 <= j < |f| ==> !f[j].1.hasBall || Some(f[j].0) == excluded
  {
    if |f| == 0 then None
    else if f[0].1.hasBall && Some(f[0].0) != excluded then Some(0)
    else
      match FirstHolder(f[1..], excluded)
      case None =>
        assert forall j :: 1 <= j < |f| ==> f[j] == f[1..][j - 1];
        None
      case Some(i) =>
        assert forall j :: 1 <= j < i + 1 ==> f[j] == f[1..][j - 1];
        Some(i + 1)
  }

  /** Every record of the frame carries a team label. */
  predicate TeamsKnown(f: Frame) {
    forall j :: 0 <= j < |f| ==> f[j].1.team.Some?
  }
}
