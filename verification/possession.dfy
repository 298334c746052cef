/** The ball-acquisition loop of `main.py`: runs the assigner on every frame,
    marks the possessor with `has_ball`, and builds `team_ball_control`. */
module Possession {
  import opened Wrappers
  import opened Geometry
  import opened OrderedMap
  import opened Tracks
  import opened PlayerBallAssigner

  /** Frame `t` has the ball record `tracks['ball'][t][1]`, which the loop
      reads unconditionally. */
  predicate BallPresent(tr: Tracks, t: nat) {
    t < |tr.ball| && HasKey(tr.ball[t], BallId)
  }

  predicate BallsPresent(tr: Tracks) {
    forall t :: 0 <= t < |tr.players| ==> BallPresent(tr, t)
  }

  function BallBox(tr: Tracks, t: nat): Box
    requires BallPresent(tr, t)
  {
    Get(tr.ball[t], BallId).value.bbox
  }

  /** A per-frame assigner: player records and ball centre to a player id or
      the sentinel. The loop is stated for any assigner that answers with a
      key of the frame or the sentinel; `AssignBallToPlayer` is one. */
  type Assigner = (Frame, Point) -> int

  ghost predicate AnswersWithKeys(assign: Assigner) {
    forall f, ball :: assign(f, ball) == NoPlayer || HasKey(f, assign(f, ball))
  }

  lemma AssignBallToPlayerAnswersWithKeys()
    ensures AnswersWithKeys(AssignBallToPlayer)
  {
  }

  /** Where `tracks['players'][t][assigned_player]` sits in frame `t`, when
      the assigner (given the ball centre `centreOf(ball_bbox)`, that is
      `get_center_of_bbox`) named somebody. */
  function AssignedIndex(tr: Tracks, centreOf: Box -> Point, assign: Assigner, t: nat): (r: Option<nat>)
    requires AnswersWithKeys(assign) && t < |tr.players| && BallPresent(tr, t)
    ensures r.None? <==> assign(tr.players[t], centreOf(BallBox(tr, t))) == NoPlayer
    ensures r.Some? ==> r.value < |tr.players[t]|
    ensures r.Some? ==> tr.players[t][r.value].0 == assign(tr.players[t], centreOf(BallBox(tr, t)))
  {
    var a := assign(tr.players[t], centreOf(BallBox(tr, t)));
    if a == NoPlayer then None else IndexOf(tr.players[t], a)
  }

  /** The assignment outcome of every frame, in frame order. */
  function Outcomes(tr: Tracks, centreOf: Box -> Point, assign: Assigner): (out: seq<Option<nat>>)
    requires AnswersWithKeys(assign) && BallsPresent(tr)
    ensures |out| == |tr.players|
    ensures forall t :: 0 <= t < |out| ==> out[t] == AssignedIndex(tr, centreOf, assign, t)
  {
    seq(|tr.players|, t requires 0 <= t < |tr.players| => AssignedIndex(tr, centreOf, assign, t))
  }

  /** Every outcome names a record of its frame, and that record has a team. */
  predicate ValidOutcomes(players: seq<Frame>, out: seq<Option<nat>>) {
    && |out| == |players|
    && forall t :: 0 <= t < |out| && out[t].Some? ==>
         out[t].value < |players[t]| && players[t][out[t].value].1.team.Some?
  }

  /** What the loop needs in order not to raise: every frame has ball track 1,
      and every assigned player has a team label. */
  ghost predicate Labelable(tr: Tracks, centreOf: Box -> Point, assign: Assigner) {
    AnswersWithKeys(assign) && BallsPresent(tr) && ValidOutcomes(tr.players, Outcomes(tr, centreOf, assign))
  }

  /** The team of the player assigned in frame `t`. */
  function TeamAt(players: seq<Frame>, out: seq<Option<nat>>, t: nat): int
    requires ValidOutcomes(players, out) && t < |out| && out[t].Some?
  {
    players[t][out[t].value].1.team.value
  }

  /** The team of the most recently assigned player at or before frame `t`. */
  function LatestTeam(players: seq<Frame>, out: seq<Option<nat>>, t: nat): Option<int>
    requires ValidOutcomes(players, out) && t < |out|
  {
    if out[t].Some? then Some(TeamAt(players, out, t))
    else if t == 0 then None
    else LatestTeam(players, out, t - 1)
  }

  /** There is no latest team exactly when no frame up to `t` is assigned. */
  lemma {:induction false} LatestTeamNone(players: seq<Frame>, out: seq<Option<nat>>, t: nat)
    requires ValidOutcomes(players, out) && t < |out|
    ensures LatestTeam(players, out, t).None? <==> forall u :: 0 <= u <= t ==> out[u].None?
  {
    if out[t].None? && t > 0 {
      LatestTeamNone(players, out, t - 1);
    }
  }

  /** `LatestTeam` is the team of the last frame `u` at or before `t` that
      has an assignment. */
  lemma {:induction false} LatestTeamIsMostRecent(players: seq<Frame>, out: seq<Option<nat>>, t: nat, u: nat)
    requires ValidOutcomes(players, out) && u <= t < |out|
    requires out[u].Some?
    requires forall v :: u < v <= t ==> out[v].None?
    ensures LatestTeam(players, out, t) == Some(TeamAt(players, out, u))
  {
    if t > u {
      LatestTeamIsMostRecent(players, out, t - 1, u);
    }
  }

  /** The first frame before `n` with an assignment. */
  function FirstAssigned(out: seq<Option<nat>>, n: nat): (r: Option<nat>)
    requires n <= |out|
    ensures r.None? <==> forall u :: 0 <= u < n ==> out[u].None?
    ensures r.Some? ==> r.value < n && out[r.value].Some?
    ensures r.Some? ==> forall u :: 0 <= u < r.value ==> out[u].None?
  {
    if n == 0 then None
    else match FirstAssigned(out, n - 1)
      case Some(u) => Some(u)
      case None => if out[n - 1].Some? then Some(n - 1) else None
  }

  /** An assigned frame `t` is the first assigned one before `t + 1` unless
      an earlier frame was assigned already. */
  lemma FirstAssignedAt(out: seq<Option<nat>>, t: nat)
    requires t < |out| && out[t].Some?
    ensures FirstAssigned(out, t).Some? ==> FirstAssigned(out, t + 1) == FirstAssigned(out, t)
    ensures FirstAssigned(out, t).None? ==> FirstAssigned(out, t + 1) == Some(t)
  {
  }

  /** The frame with `has_ball` set on the player at `idx`, if any. */
  function WithPossession(f: Frame, idx: Option<nat>): (r: Frame)
    requires idx.Some? ==> idx.value < |f|
    ensures |r| == |f|
    ensures forall j :: 0 <= j < |f| ==> r[j].0 == f[j].0
    ensures forall j :: 0 <= j < |f| ==> r[j].1.hasBall == (f[j].1.hasBall || idx == Some(j))
    ensures forall j :: 0 <= j < |f| ==> r[j].1 == f[j].1.(hasBall := r[j].1.hasBall)
  {
    match idx
    case None => f
    case Some(i) => f[i := (f[i].0, f[i].1.(hasBall := true))]
  }

  /** One iteration of the loop: the frame with the possessor marked, and
      the possessor's team when somebody is assigned. */
  method LabelFrame(tr: Tracks, centreOf: Box -> Point, assign: Assigner, t: nat) returns (f: Frame, team: Option<int>)
    requires Labelable(tr, centreOf, assign) && t < |tr.players|
    ensures f == WithPossession(tr.players[t], Outcomes(tr, centreOf, assign)[t])
    ensures team.None? <==> Outcomes(tr, centreOf, assign)[t].None?
    ensures team.Some? ==> team.value == TeamAt(tr.players, Outcomes(tr, centreOf, assign), t)
  {
    assert BallPresent(tr, t);
    assert Outcomes(tr, centreOf, assign)[t] == AssignedIndex(tr, centreOf, assign, t);
    var ball := centreOf(Get(tr.ball[t], BallId).value.bbox);
    var chosen := assign(tr.players[t], ball);
    if chosen != NoPlayer {
      var i := IndexOf(tr.players[t], chosen).value;
      var track := tr.players[t][i].1;
      f := tr.players[t][i := (chosen, track.(hasBall := true))];
      team := Some(track.team.value);
    } else {
      f := tr.players[t];
      team := None;
    }
  }

  /** Lines 111-116 of `main.py`: the possessor's team is appended; with
      nobody assigned the last entry is repeated, if there is one. */
  function AppendControl(control: seq<int>, team: Option<int>): seq<int> {
    if team.Some? then control + [team.value]
    else if |control| > 0 then control + [control[|control| - 1]]
    else control
  }

  /** The entries already in `control` keep their meaning when one more is
      appended for frame `t`. */
  lemma ShiftedEntries(players: seq<Frame>, out: seq<Option<nat>>, control: seq<int>, next: seq<int>, t: nat)
    requires ValidOutcomes(players, out) && t < |out|
    requires |next| == |control| + 1 && next[..|control|] == control
    requires |control| <= t
    requires forall k :: 0 <= k < |control| ==> Some(control[k]) == LatestTeam(players, out, t - |control| + k)
    requires Some(next[|control|]) == LatestTeam(players, out, t)
    ensures forall k :: 0 <= k < |next| ==> Some(next[k]) == LatestTeam(players, out, t + 1 - |next| + k)
  {
    forall k | 0 <= k < |next|
      ensures Some(next[k]) == LatestTeam(players, out, t + 1 - |next| + k)
    {
      if k < |control| {
        assert next[k] == next[..|control|][k];
      }
    }
  }

  /** `control` holds one entry per frame from the first assigned frame
      before `t` on (none if there is none), and each entry is the latest
      assigned team at or before its frame. */
  predicate ControlMatches(players: seq<Frame>, out: seq<Option<nat>>, t: nat, control: seq<int>)
    requires ValidOutcomes(players, out) && t <= |out|
  {
    && (FirstAssigned(out, t).None? ==> control == [])
    && (FirstAssigned(out, t).Some? ==> |control| == t - FirstAssigned(out, t).value)
    && (forall k :: 0 <= k < |control| ==> Some(control[k]) == LatestTeam(players, out, t - |control| + k))
  }

  /** Appending frame `t`'s entry keeps every entry equal to the latest
      assigned team of its frame. */
  lemma ControlStep(players: seq<Frame>, out: seq<Option<nat>>, control: seq<int>, t: nat, team: Option<int>)
    requires ValidOutcomes(players, out) && t < |out|
    requires team.None? <==> out[t].None?
    requires team.Some? ==> team.value == TeamAt(players, out, t)
    requires ControlMatches(players, out, t, control)
    ensures ControlMatches(players, out, t + 1, AppendControl(control, team))
  {
    if team.Some? {
      ControlStepAssigned(players, out, control, t, team.value);
    } else if |control| > 0 {
      ControlStepRepeat(players, out, control, t);
    } else {
      assert FirstAssigned(out, t + 1).None?;
    }
  }

  lemma ControlStepAssigned(players: seq<Frame>, out: seq<Option<nat>>, control: seq<int>, t: nat, team: int)
    requires ValidOutcomes(players, out) && t < |out| && out[t].Some?
    requires team == TeamAt(players, out, t)
    requires ControlMatches(players, out, t, control)
    ensures ControlMatches(players, out, t + 1, control + [team])
  {
    var next := control + [team];
    FirstAssignedAt(out, t);
    assert LatestTeam(players, out, t) == Some(team);
    assert next[..|control|] == control;
    ShiftedEntries(players, out, control, next, t);
  }

  lemma ControlStepRepeat(players: seq<Frame>, out: seq<Option<nat>>, control: seq<int>, t: nat)
    requires ValidOutcomes(players, out) && t < |out| && out[t].None? && |control| > 0
    requires ControlMatches(players, out, t, control)
    ensures ControlMatches(players, out, t + 1, control + [control[|control| - 1]])
  {
    var next := control + [control[|control| - 1]];
    assert FirstAssigned(out, t).Some?;
    assert LatestTeam(players, out, t) == LatestTeam(players, out, t - 1);
    assert next[..|control|] == control;
    ShiftedEntries(players, out, control, next, t);
  }

  lemma AppendFrame(players: seq<Frame>, f: Frame, input: seq<Frame>, out: seq<Option<nat>>, t: nat)
    requires |players| == t && t < |input| && t < |out|
    requires out[t].Some? ==> out[t].value < |input[t]|
    requires forall u :: 0 <= u < t ==> out[u].Some? ==> out[u].value < |input[u]|
    requires forall u :: 0 <= u < t ==> players[u] == WithPossession(input[u], out[u])
    requires f == WithPossession(input[t], out[t])
    ensures forall u :: 0 <= u < t + 1 ==> (players + [f])[u] == WithPossession(input[u], out[u])
  {
  }

  /** What holds after the loop has processed frames `0..t`. */
  predicate Processed(input: seq<Frame>, out: seq<Option<nat>>, t: nat, players: seq<Frame>, control: seq<int>)
    requires ValidOutcomes(input, out) && t <= |out|
  {
    && |players| == t
    && (forall u :: 0 <= u < t ==> players[u] == WithPossession(input[u], out[u]))
    && ControlMatches(input, out, t, control)
  }

  lemma ProcessedStep(input: seq<Frame>, out: seq<Option<nat>>, t: nat, players: seq<Frame>, control: seq<int>,
                      f: Frame, team: Option<int>)
    requires ValidOutcomes(input, out) && t < |out|
    requires Processed(input, out, t, players, control)
    requires f == WithPossession(input[t], out[t])
    requires team.None? <==> out[t].None?
    requires team.Some? ==> team.value == TeamAt(input, out, t)
    ensures Processed(input, out, t + 1, players + [f], AppendControl(control, team))
  {
    AppendFrame(players, f, input, out, t);
    ControlStep(input, out, control, t, team);
  }

  /** One pass of the loop body, for frame `t`. */
  method ProcessFrame(tr: Tracks, centreOf: Box -> Point, assign: Assigner, t: nat, players: seq<Frame>, control: seq<int>)
    returns (players': seq<Frame>, control': seq<int>)
    requires Labelable(tr, centreOf, assign) && t < |tr.players|
    requires Processed(tr.players, Outcomes(tr, centreOf, assign), t, players, control)
    ensures Processed(tr.players, Outcomes(tr, centreOf, assign), t + 1, players', control')
  {
    var f, team := LabelFrame(tr, centreOf, assign, t);
    ProcessedStep(tr.players, Outcomes(tr, centreOf, assign), t, players, control, f, team);
    players' := players + [f];
    control' := AppendControl(control, team);
  }

  /** Lines 104-117 of `main.py`: the loop over all frames. What the result
      holds is spelled out by `ProcessedMeans`. */
  method AssignBallAcquisition(tr: Tracks, centreOf: Box -> Point, assign: Assigner) returns (players: seq<Frame>, control: seq<int>)
    requires Labelable(tr, centreOf, assign)
    ensures Processed(tr.players, Outcomes(tr, centreOf, assign), |tr.players|, players, control)
  {
    players := [];
    control := [];
    var t := 0;
    while t < |tr.players|
      invariant t <= |tr.players|
      invariant Processed(tr.players, Outcomes(tr, centreOf, assign), t, players, control)
    {
      players, control := ProcessFrame(tr, centreOf, assign, t, players, control);
      t := t + 1;
    }
  }

  /** After all `n` frames: frame `t` of `players` is the input frame with
      `has_ball` written on the assigned player and nothing else changed;
      `control` has one entry per frame from the first assigned frame on
      (none if no frame is assigned), and each entry is the team of the
      latest assigned player at or before its frame. So entry `k` belongs to
      frame `k` only when frame 0 is assigned. */
  lemma ProcessedMeans(input: seq<Frame>, out: seq<Option<nat>>, players: seq<Frame>, control: seq<int>)
    requires ValidOutcomes(input, out)
    requires Processed(input, out, |input|, players, control)
    ensures |players| == |input|
    ensures forall t :: 0 <= t < |input| ==> |players[t]| == |input[t]|
    ensures forall t, j :: 0 <= t < |input| && 0 <= j < |input[t]| ==>
              players[t][j].0 == input[t][j].0 && players[t][j].1 == input[t][j].1.(hasBall := players[t][j].1.hasBall)
    ensures forall t, j :: 0 <= t < |input| && 0 <= j < |input[t]| ==>
              players[t][j].1.hasBall == (input[t][j].1.hasBall || out[t] == Some(j))
    ensures FirstAssigned(out, |input|).None? ==> control == []
    ensures FirstAssigned(out, |input|).Some? ==> |control| == |input| - FirstAssigned(out, |input|).value
    ensures |input| > 0 && out[0].Some? ==> |control| == |input|
    ensures forall k :: 0 <= k < |control| ==> |control| <= |input| && Some(control[k]) == LatestTeam(input, out, |input| - |control| + k)
  {
    if |input| > 0 && out[0].Some? {
      assert FirstAssigned(out, |input|) == Some(0);
    }
  }

  /** When the input carries no `has_ball` flags, the first flagged player of
      a labelled frame is exactly the assigner's choice, and nobody else is
      flagged: this is what the pass statistics later read back. */
  lemma PossessorIsAssignedPlayer(f: Frame, idx: Option<nat>)
    requires idx.Some? ==> idx.value < |f|
    requires forall j :: 0 <= j < |f| ==> !f[j].1.hasBall
    ensures FirstHolder(WithPossession(f, idx), None) == idx
    ensures forall j :: 0 <= j < |f| && WithPossession(f, idx)[j].1.hasBall ==> idx == Some(j)
  {
  }
}
