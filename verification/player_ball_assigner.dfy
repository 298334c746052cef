/** `PlayerBallAssigner.assign_ball_to_player`: which player, if any,
    possesses the ball in one frame. */
module PlayerBallAssigner {
  import opened Wrappers
  import opened Geometry
  import opened OrderedMap
  import opened Tracks

  /** The reach used when the frame has no players (also the constructor's
      initial value of `max_player_ball_distance`). */
  const DefaultMaxDistance: real := 70.0

  /** The initial `miniumum_distance` of the selection loop: a second cap on
      every accepted distance. */
  const InitialMinimum: real := 99999.0

  /** The sentinel returned when nobody is close enough. */
  const NoPlayer: int := -1

  function SumHeights(ps: Frame): real {
    if |ps| == 0 then 0.0 else Height(ps[0].1.bbox) + SumHeights(ps[1..])
  }

  /** The adaptive reach: half the mean player box height, or the default
      when there are no players. */
  function MaxPlayerBallDistance(ps: Frame): (r: real)
    ensures |ps| == 0 ==> r == DefaultMaxDistance
    ensures |ps| > 0 ==> r * (2 * |ps|) as real == SumHeights(ps)
  {
    if |ps| > 0 then SumHeights(ps) / (2 * |ps|) as real else DefaultMaxDistance
  }

  lemma {:induction false} SumHeightsBounds(ps: Frame, lo: real, hi: real)
    requires forall j :: 0 <= j < |ps| ==> lo <= Height(ps[j].1.bbox) <= hi
    ensures |ps| as real * lo <= SumHeights(ps) <= |ps| as real * hi
  {
    if |ps| > 0 {
      SumHeightsBounds(ps[1..], lo, hi);
      assert Height(ps[0].1.bbox) == Height(ps[..][0].1.bbox);
    }
  }

  /** The reach lies between half the smallest and half the largest box
      height of the frame: it is half of their mean. */
  lemma ReachIsHalfMeanHeight(ps: Frame, lo: real, hi: real)
    requires |ps| > 0
    requires forall j :: 0 <= j < |ps| ==> lo <= Height(ps[j].1.bbox) <= hi
    ensures lo / 2.0 <= MaxPlayerBallDistance(ps) <= hi / 2.0
  {
    SumHeightsBounds(ps, lo, hi);
    var n := |ps| as real;
    var r := MaxPlayerBallDistance(ps);
    assert r * (2.0 * n) == SumHeights(ps);
    assert n * (2.0 * r - lo) >= 0.0;
    assert n * (hi - 2.0 * r) >= 0.0;
  }

  /** The squared distance from the ball centre to the nearer foot corner
      (bottom-left or bottom-right) of a player box. */
  function FootDistance2(b: Box, ball: Point): (d: real)
    ensures d >= 0.0
    ensures d <= Dist2(Point(b.x1, b.y2), ball) && d <= Dist2(Point(b.x2, b.y2), ball)
    ensures d == Dist2(Point(b.x1, b.y2), ball) || d == Dist2(Point(b.x2, b.y2), ball)
  {
    var left := Dist2(Point(b.x1, b.y2), ball);
    var right := Dist2(Point(b.x2, b.y2), ball);
    if left <= right then left else right
  }

  function PlayerDistance2(ps: Frame, ball: Point, i: nat): real
    requires i < |ps|
  {
    FootDistance2(ps[i].1.bbox, ball)
  }

  /** Player `i` is close enough to be assigned: its distance is below the
      reach and below the initial minimum. */
  predicate Qualifies(ps: Frame, ball: Point, i: nat)
    requires i < |ps|
  {
    var d := PlayerDistance2(ps, ball, i);
    DistanceBelow(d, MaxPlayerBallDistance(ps)) && DistanceBelow(d, InitialMinimum)
  }

  /** Player `i` is the one the assigner must pick among the first `n`: it
      qualifies, nobody qualifying is nearer, and every qualifying player
      before it is strictly farther (the first of equals wins). */
  predicate Chosen(ps: Frame, ball: Point, n: nat, i: nat)
    requires n <= |ps|
  {
    && i < n
    && Qualifies(ps, ball, i)
    && (forall j :: 0 <= j < n && Qualifies(ps, ball, j) ==>
          PlayerDistance2(ps, ball, i) <= PlayerDistance2(ps, ball, j))
    && (forall j :: 0 <= j < i && Qualifies(ps, ball, j) ==>
          PlayerDistance2(ps, ball, j) > PlayerDistance2(ps, ball, i))
  }

  /** The selection loop's variables: the squared `miniumum_distance` and the
      position of `assigned_player`. */
  datatype Scan = Scan(minimum2: real, chosen: Option<nat>)

  /** The loop state after the first `n` players, in iteration order. */
  function ScanPlayers(ps: Frame, ball: Point, n: nat): (s: Scan)
    requires n <= |ps|
    ensures s.chosen.Some? ==> s.chosen.value < n
  {
    if n == 0 then Scan(InitialMinimum * InitialMinimum, None)
    else
      var s := ScanPlayers(ps, ball, n - 1);
      var d := PlayerDistance2(ps, ball, n - 1);
      if DistanceBelow(d, MaxPlayerBallDistance(ps)) && d < s.minimum2
      then Scan(d, Some(n - 1))
      else s
  }

  /** After `n` players the loop holds the chosen one, or nobody exactly when
      none of them qualifies. */
  lemma {:induction false} ScanFindsChosen(ps: Frame, ball: Point, n: nat)
    requires n <= |ps|
    ensures ScanPlayers(ps, ball, n).chosen.None? <==>
              forall j :: 0 <= j < n ==> !Qualifies(ps, ball, j)
    ensures ScanPlayers(ps, ball, n).chosen.None? ==>
              ScanPlayers(ps, ball, n).minimum2 == InitialMinimum * InitialMinimum
    ensures ScanPlayers(ps, ball, n).chosen.Some? ==>
              var i := ScanPlayers(ps, ball, n).chosen.value;
              Chosen(ps, ball, n, i) && ScanPlayers(ps, ball, n).minimum2 == PlayerDistance2(ps, ball, i)
  {
    if n > 0 {
      ScanFindsChosen(ps, ball, n - 1);
      var s := ScanPlayers(ps, ball, n - 1);
      var d := PlayerDistance2(ps, ball, n - 1);
      var cap2 := InitialMinimum * InitialMinimum;
      assert s.minimum2 <= cap2;
      if DistanceBelow(d, MaxPlayerBallDistance(ps)) && d < s.minimum2 {
        assert Qualifies(ps, ball, n - 1);
        forall j | 0 <= j < n - 1 && Qualifies(ps, ball, j)
          ensures PlayerDistance2(ps, ball, j) > d
        {
          assert s.chosen.Some?;
        }
        assert Chosen(ps, ball, n, n - 1);
      } else if s.chosen.Some? {
        var i := s.chosen.value;
        assert Qualifies(ps, ball, n - 1) ==> PlayerDistance2(ps, ball, i) <= d;
        assert Chosen(ps, ball, n, i);
      } else {
        assert !Qualifies(ps, ball, n - 1);
      }
    }
  }

  /** Two players cannot both be the chosen one. */
  lemma ChosenIsUnique(ps: Frame, ball: Point, n: nat, i: nat, k: nat)
    requires n <= |ps|
    requires Chosen(ps, ball, n, i) && Chosen(ps, ball, n, k)
    ensures i == k
  {
  }

  /** `assign_ball_to_player(players, ball_bbox)`, with `ball` the centre of
      the ball box. The reach stored in `max_player_ball_distance` is
      recomputed on every call before it is read, so it is a local here. */
  function AssignBallToPlayer(ps: Frame, ball: Point): (r: int)
    ensures r == NoPlayer || HasKey(ps, r)
  {
    match ScanPlayers(ps, ball, |ps|).chosen
    case None => NoPlayer
    case Some(i) => ps[i].0
  }

  /** The assigner answers with the chosen player's id, and with the sentinel
      exactly when nobody qualifies (given that no player uses the sentinel
      as its id). */
  lemma AssignmentIsChosen(ps: Frame, ball: Point)
    ensures AssignBallToPlayer(ps, ball) != NoPlayer ==>
              exists i: nat :: Chosen(ps, ball, |ps|, i) && ps[i].0 == AssignBallToPlayer(ps, ball)
    ensures forall i: nat :: Chosen(ps, ball, |ps|, i) ==> AssignBallToPlayer(ps, ball) == ps[i].0
    ensures (forall j :: 0 <= j < |ps| ==> !Qualifies(ps, ball, j)) ==> AssignBallToPlayer(ps, ball) == NoPlayer
    ensures (forall j :: 0 <= j < |ps| ==> ps[j].0 != NoPlayer) ==>
              (AssignBallToPlayer(ps, ball) == NoPlayer <==> forall j :: 0 <= j < |ps| ==> !Qualifies(ps, ball, j))
  {
    ScanFindsChosen(ps, ball, |ps|);
    match ScanPlayers(ps, ball, |ps|).chosen
    case None =>
    case Some(i) =>
      forall k: nat | Chosen(ps, ball, |ps|, k)
        ensures k == i
      {
        ChosenIsUnique(ps, ball, |ps|, i, k);
      }
  }

  /** With no players there is nobody to assign. */
  lemma NoPlayersNoAssignment(ball: Point)
    ensures AssignBallToPlayer([], ball) == NoPlayer
  {
  }

  /** A lone player is assigned as soon as its nearer foot is within half its
      own box height of the ball. */
  lemma LonePlayerWithinReach(id: int, p: PlayerTrack, ball: Point)
    requires DistanceBelow(FootDistance2(p.bbox, ball), Height(p.bbox) / 2.0)
    requires DistanceBelow(FootDistance2(p.bbox, ball), InitialMinimum)
    ensures AssignBallToPlayer([(id, p)], ball) == id
  {
    var ps := [(id, p)];
    assert SumHeights(ps) == Height(p.bbox);
    assert Chosen(ps, ball, 1, 0);
    AssignmentIsChosen(ps, ball);
  }
}
