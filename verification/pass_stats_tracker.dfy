/** `PassStatsTracker`: per-player pass counters fed frame by frame from the
    `has_ball` flags, with a one-frame look-ahead. */
module PassStatsTracker {
  import opened Wrappers
  import opened OrderedMap
  import opened Tracks
  import opened Text

  /** The counters of one player record. */
  datatype Counters = Counters(totalPasses: nat, successfulPasses: nat, receivedPasses: nat)

  /** The record `initialize_player_stats` creates. */
  const Zero: Counters := Counters(0, 0, 0)

  /** `self.pass_stats`: player id to counters, in creation order. */
  type Stats = seq<(int, Counters)>

  /** A pass needs the ball to move strictly faster than this at frame `t`. */
  const SpeedThreshold: real := 5.0

  datatype Field = Total | Successful | Received

  function FieldOf(c: Counters, f: Field): nat {
    match f
    case Total => c.totalPasses
    case Successful => c.successfulPasses
    case Received => c.receivedPasses
  }

  /** `stats[f] += 1` on one record. */
  function Bump(c: Counters, f: Field): (r: Counters)
    ensures FieldOf(r, f) == FieldOf(c, f) + 1
    ensures forall g :: g != f ==> FieldOf(r, g) == FieldOf(c, g)
  {
    match f
    case Total => c.(totalPasses := c.totalPasses + 1)
    case Successful => c.(successfulPasses := c.successfulPasses + 1)
    case Received => c.(receivedPasses := c.receivedPasses + 1)
  }

  /** The counters of `id`, zero when it has no record. */
  function Counts(s: Stats, id: int): Counters {
    Get(s, id).GetOr(Zero)
  }

  /** `initialize_player_stats(player_id)`: creates a zeroed record, at the
      end of the creation order, only when `id` has none. */
  function InitializePlayerStats(s: Stats, id: int): (r: Stats)
    ensures HasKey(r, id)
    ensures Get(r, id) == Some(Counts(s, id))
    ensures forall k :: k != id ==> Get(r, k) == Get(s, k)
    ensures Keys(r) == if HasKey(s, id) then Keys(s) else Keys(s) + [id]
    ensures forall k :: HasKey(s, k) ==> HasKey(r, k)
    ensures DistinctKeys(s) ==> DistinctKeys(r)
  {
    if HasKey(s, id) then s else Put(s, id, Zero)
  }

  /** Creating a record twice is creating it once: an existing record is
      never reset. */
  lemma InitializeIsIdempotent(s: Stats, id: int)
    ensures InitializePlayerStats(InitializePlayerStats(s, id), id) == InitializePlayerStats(s, id)
  {
  }

  /** `self.pass_stats[id][f] += 1` on an existing record. */
  function Credit(s: Stats, id: int, f: Field): (r: Stats)
    requires HasKey(s, id)
    ensures Get(r, id) == Some(Bump(Counts(s, id), f))
    ensures forall k :: k != id ==> Get(r, k) == Get(s, k)
    ensures Keys(r) == Keys(s)
    ensures forall k :: HasKey(s, k) ==> HasKey(r, k)
    ensures DistinctKeys(s) ==> DistinctKeys(r)
  {
    Put(s, id, Bump(Counts(s, id), f))
  }

  /** `tracks['ball'][t].get(1, {}).get('speed', 0)`. */
  function BallSpeed(tr: Tracks, t: nat): real
    requires t < |tr.ball|
  {
    match Get(tr.ball[t], BallId)
    case None => 0.0
    case Some(b) => b.speed.GetOr(0.0)
  }

  /** The holder at frame `t` (first flagged record) and the receiver at
      `t + 1` (first flagged record with another id), as positions. */
  function Holder(tr: Tracks, t: nat): Option<nat>
    requires t < |tr.players|
  {
    FirstHolder(tr.players[t], None)
  }

  function Receiver(tr: Tracks, t: nat): Option<nat>
    requires t + 1 < |tr.players| && Holder(tr, t).Some?
  {
    FirstHolder(tr.players[t + 1], Some(tr.players[t][Holder(tr, t).value].0))
  }

  /** A change of possessor between frames `t` and `t + 1`, before the
      speed gate. */
  predicate Handover(tr: Tracks, t: nat) {
    t + 1 < |tr.players| && Holder(tr, t).Some? && Receiver(tr, t).Some?
  }

  /** What `update_frame_stats(tracks, t, _)` reads without raising: the ball
      list reaches frame `t` when a handover is seen, and both players carry
      a team when the handover is fast enough to be a pass. */
  predicate UpdateDefined(tr: Tracks, t: nat) {
    Handover(tr, t) ==>
      && t < |tr.ball|
      && (BallSpeed(tr, t) > SpeedThreshold ==>
            && tr.players[t][Holder(tr, t).value].1.team.Some?
            && tr.players[t + 1][Receiver(tr, t).value].1.team.Some?)
  }

  /** `update_frame_stats(tracks, frame_num, team_ball_control)`. The last
      argument is never read by the source, so the model omits it. Once the
      ball is too slow for the first candidate receiver it is too slow for
      every later one, so the source's loop over candidates reduces to the
      first of them. */
  function UpdateFrameStats(s: Stats, tr: Tracks, t: nat): Stats
    requires UpdateDefined(tr, t)
  {
    if t >= |tr.players| then s
    else
      match FirstHolder(tr.players[t], None)
      case None => s
      case Some(i) =>
        var passer := tr.players[t][i];
        var s1 := InitializePlayerStats(s, passer.0);
        if t + 1 < |tr.players| then
          match FirstHolder(tr.players[t + 1], Some(passer.0))
          case None => s1
          case Some(j) =>
            if BallSpeed(tr, t) > SpeedThreshold then
              var other := tr.players[t + 1][j];
              RecordPass(s1, passer.0, other.0, passer.1.team.value == other.1.team.value)
            else s1
        else s1
  }

  /** The body of the pass branch: both players get a record, a same-team
      pass credits a success to the passer and a reception to the receiver,
      and every pass counts towards the passer's total. */
  function RecordPass(s: Stats, passer: int, receiver: int, sameTeam: bool): Stats {
    var s2 := InitializePlayerStats(InitializePlayerStats(s, passer), receiver);
    var s3 := if sameTeam then Credit(Credit(s2, passer, Successful), receiver, Received) else s2;
    Credit(s3, passer, Total)
  }

  // ---- What one frame means ----

  /** What the tracker sees at one frame: nobody holding the ball, a holder
      with no pass, or a pass between two players. */
  datatype FrameEvent =
    | Idle
    | Hold(holder: int)
    | Pass(holder: int, receiver: int, sameTeam: bool)

  /** The event at frame `t`: the holder is the first record flagged at `t`;
      a pass needs a flagged record with another id at `t + 1` and a ball
      faster than the threshold at `t`; it is successful when both records
      carry the same team. */
  function EventAt(tr: Tracks, t: nat): (e: FrameEvent)
    requires UpdateDefined(tr, t)
    ensures e.Pass? ==> e.holder != e.receiver
  {
    if t >= |tr.players| || Holder(tr, t).None? then Idle
    else
      var a := tr.players[t][Holder(tr, t).value];
      if Handover(tr, t) && t < |tr.ball| && BallSpeed(tr, t) > SpeedThreshold then
        var o := tr.players[t + 1][Receiver(tr, t).value];
        Pass(a.0, o.0, a.1.team == o.1.team)
      else Hold(a.0)
  }

  /** The event read back in the terms of the frames: nothing happens when
      `t` is past the last frame or nobody has the ball; otherwise the
      holder is the first flagged record at `t`, and a pass happens exactly
      when a record with another id is flagged at `t + 1` and the ball is
      faster than the threshold at `t`. */
  lemma EventAtMeans(tr: Tracks, t: nat)
    requires UpdateDefined(tr, t)
    ensures EventAt(tr, t).Idle? <==> t >= |tr.players| || Holder(tr, t).None?
    ensures !EventAt(tr, t).Idle? ==>
              && tr.players[t][Holder(tr, t).value].1.hasBall
              && EventAt(tr, t).holder == tr.players[t][Holder(tr, t).value].0
              && forall j :: 0 <= j < Holder(tr, t).value ==> !tr.players[t][j].1.hasBall
    ensures EventAt(tr, t).Pass? <==> Handover(tr, t) && t < |tr.ball| && BallSpeed(tr, t) > SpeedThreshold
    ensures EventAt(tr, t).Pass? ==>
              && tr.players[t + 1][Receiver(tr, t).value].1.hasBall
              && EventAt(tr, t).receiver == tr.players[t + 1][Receiver(tr, t).value].0
    ensures EventAt(tr, t).Pass? ==>
              (EventAt(tr, t).sameTeam <==> tr.players[t][Holder(tr, t).value].1.team
                                            == tr.players[t + 1][Receiver(tr, t).value].1.team)
  {
  }

  /** The effect of an event on the statistics. */
  function Apply(s: Stats, e: FrameEvent): Stats {
    match e
    case Idle => s
    case Hold(a) => InitializePlayerStats(s, a)
    case Pass(a, o, same) => RecordPass(InitializePlayerStats(s, a), a, o, same)
  }

  /** The frame update is the application of the frame's event. */
  lemma UpdateIsEvent(s: Stats, tr: Tracks, t: nat)
    requires UpdateDefined(tr, t)
    ensures UpdateFrameStats(s, tr, t) == Apply(s, EventAt(tr, t))
  {
  }

  /** The players an event concerns. */
  predicate Involved(e: FrameEvent, k: int) {
    match e
    case Idle => false
    case Hold(a) => k == a
    case Pass(a, o, _) => k == a || k == o
  }

  /** What an event adds to counter `f` of player `k`: one pass for the
      passer; on a same-team pass also one success for the passer and one
      reception for the receiver; nothing for anybody else. */
  function EventCredit(e: FrameEvent, k: int, f: Field): nat {
    match e
    case Pass(a, o, same) =>
      (match f
       case Total => if k == a then 1 else 0
       case Successful => if same && k == a then 1 else 0
       case Received => if same && k == o then 1 else 0)
    case _ => 0
  }

  /** What an event adds to the total of counter `f` over all players. */
  function EventTotal(e: FrameEvent, f: Field): nat {
    match e
    case Pass(_, _, same) => if f.Total? || same then 1 else 0
    case _ => 0
  }

  // ---- Counters ----

  /** Creating a record leaves every counter of every player as it reads. */
  lemma InitializeKeepsCounts(s: Stats, id: int)
    ensures forall k, f :: FieldOf(Counts(InitializePlayerStats(s, id), k), f) == FieldOf(Counts(s, k), f)
  {
  }

  /** Crediting moves one counter of one player by one. */
  lemma CreditMovesOneCounter(s: Stats, id: int, g: Field)
    requires HasKey(s, id)
    ensures forall k, f :: FieldOf(Counts(Credit(s, id, g), k), f)
                           == FieldOf(Counts(s, k), f) + (if k == id && f == g then 1 else 0)
  {
  }

  lemma SameTeamPassCounts(s2: Stats, passer: int, receiver: int)
    requires passer != receiver && HasKey(s2, passer) && HasKey(s2, receiver)
    ensures forall k, f ::
      FieldOf(Counts(Credit(Credit(Credit(s2, passer, Successful), receiver, Received), passer, Total), k), f)
      == FieldOf(Counts(s2, k), f) + EventCredit(Pass(passer, receiver, true), k, f)
  {
    var c1 := Credit(s2, passer, Successful);
    var c2 := Credit(c1, receiver, Received);
    CreditMovesOneCounter(s2, passer, Successful);
    CreditMovesOneCounter(c1, receiver, Received);
    CreditMovesOneCounter(c2, passer, Total);
  }

  /** Recording a pass between two different players moves exactly the
      counters `EventCredit` names, by one each. */
  lemma RecordPassCounts(s: Stats, passer: int, receiver: int, sameTeam: bool)
    requires passer != receiver
    ensures forall k, f :: FieldOf(Counts(RecordPass(s, passer, receiver, sameTeam), k), f)
                           == FieldOf(Counts(s, k), f) + EventCredit(Pass(passer, receiver, sameTeam), k, f)
  {
    var s2 := InitializePlayerStats(InitializePlayerStats(s, passer), receiver);
    InitializeKeepsCounts(s, passer);
    InitializeKeepsCounts(InitializePlayerStats(s, passer), receiver);
    if sameTeam {
      SameTeamPassCounts(s2, passer, receiver);
    } else {
      CreditMovesOneCounter(s2, passer, Total);
    }
  }

  /** Every player's counters grow by exactly what the event credits them. */
  lemma ApplyCounts(s: Stats, e: FrameEvent)
    requires e.Pass? ==> e.holder != e.receiver
    ensures forall k, f :: FieldOf(Counts(Apply(s, e), k), f) == FieldOf(Counts(s, k), f) + EventCredit(e, k, f)
  {
    match e
    case Idle =>
    case Hold(a) =>
      InitializeKeepsCounts(s, a);
    case Pass(a, o, same) =>
      InitializeKeepsCounts(s, a);
      RecordPassCounts(InitializePlayerStats(s, a), a, o, same);
  }

  // ---- Records ----

  /** Going from `s` to `r` adds records for the players `ks` and for nobody
      else, appends them after the existing ones and never gives a player two. */
  ghost predicate Adds(s: Stats, r: Stats, ks: set<int>) {
    && (forall k :: HasKey(r, k) <==> HasKey(s, k) || k in ks)
    && Keys(s) <= Keys(r)
    && (DistinctKeys(s) ==> DistinctKeys(r))
  }

  lemma AddsTrans(s: Stats, r: Stats, q: Stats, ks: set<int>, ks': set<int>)
    requires Adds(s, r, ks) && Adds(r, q, ks')
    ensures Adds(s, q, ks + ks')
  {
    assert Keys(s) == Keys(r)[..|Keys(s)|] == Keys(q)[..|Keys(r)|][..|Keys(s)|];
  }

  // The three ways steps compose in a pass, each stated with the exact sets
  // the callers hold.

  lemma AddsThenNothing(s: Stats, r: Stats, q: Stats, ks: set<int>)
    requires Adds(s, r, ks) && Adds(r, q, {})
    ensures Adds(s, q, ks)
  {
    AddsTrans(s, r, q, ks, {});
    assert ks + {} == ks;
  }

  lemma AddsOneThenOne(s: Stats, r: Stats, q: Stats, a: int, o: int)
    requires Adds(s, r, {a}) && Adds(r, q, {o})
    ensures Adds(s, q, {a, o})
  {
    AddsTrans(s, r, q, {a}, {o});
    assert {a} + {o} == {a, o};
  }

  lemma AddsOneThenPair(s: Stats, r: Stats, q: Stats, a: int, o: int)
    requires Adds(s, r, {a}) && Adds(r, q, {a, o})
    ensures Adds(s, q, {a, o})
  {
    AddsTrans(s, r, q, {a}, {a, o});
    assert {a} + {a, o} == {a, o};
  }

  /** Creating a record adds the player, at the end, if it was missing. */
  lemma InitializeRecords(s: Stats, id: int)
    ensures Adds(s, InitializePlayerStats(s, id), {id})
  {
    var r := InitializePlayerStats(s, id);
    forall k | HasKey(r, k) && k != id
      ensures HasKey(s, k)
    {
      assert Get(r, k) == Get(s, k);
    }
  }

  /** Crediting a counter adds no record. */
  lemma CreditRecords(s: Stats, id: int, f: Field)
    requires HasKey(s, id)
    ensures Adds(s, Credit(s, id, f), {})
  {
    var r := Credit(s, id, f);
    forall k | HasKey(r, k) && k != id
      ensures HasKey(s, k)
    {
      assert Get(r, k) == Get(s, k);
    }
  }

  /** The two records a pass starts with: both players get one. */
  lemma PassPlayersRecords(s: Stats, passer: int, receiver: int)
    ensures Adds(s, InitializePlayerStats(InitializePlayerStats(s, passer), receiver), {passer, receiver})
    ensures HasKey(InitializePlayerStats(InitializePlayerStats(s, passer), receiver), passer)
  {
    var s1 := InitializePlayerStats(s, passer);
    InitializeRecords(s, passer);
    InitializeRecords(s1, receiver);
    AddsOneThenOne(s, s1, InitializePlayerStats(s1, receiver), passer, receiver);
  }

  /** The three credits of a same-team pass add no record. */
  lemma SameTeamCreditsRecords(s2: Stats, passer: int, receiver: int)
    requires HasKey(s2, passer) && HasKey(s2, receiver)
    ensures Adds(s2, Credit(Credit(Credit(s2, passer, Successful), receiver, Received), passer, Total), {})
  {
    var c1 := Credit(s2, passer, Successful);
    var c2 := Credit(c1, receiver, Received);
    CreditRecords(s2, passer, Successful);
    CreditRecords(c1, receiver, Received);
    CreditRecords(c2, passer, Total);
    AddsThenNothing(s2, c1, c2, {});
    AddsThenNothing(s2, c2, Credit(c2, passer, Total), {});
  }

  /** Recording a pass creates records for its two players and nobody else. */
  lemma RecordPassRecords(s: Stats, passer: int, receiver: int, sameTeam: bool)
    ensures Adds(s, RecordPass(s, passer, receiver, sameTeam), {passer, receiver})
  {
    var s2 := InitializePlayerStats(InitializePlayerStats(s, passer), receiver);
    PassPlayersRecords(s, passer, receiver);
    if sameTeam {
      SameTeamCreditsRecords(s2, passer, receiver);
    } else {
      CreditRecords(s2, passer, Total);
    }
    AddsThenNothing(s, s2, RecordPass(s, passer, receiver, sameTeam), {passer, receiver});
  }

  /** The players an event concerns, as a set. */
  function Players(e: FrameEvent): (ks: set<int>)
    ensures forall k :: k in ks <==> Involved(e, k)
  {
    match e
    case Idle => {}
    case Hold(a) => {a}
    case Pass(a, o, _) => {a, o}
  }

  lemma PassRecords(s: Stats, a: int, o: int, same: bool)
    ensures Adds(s, RecordPass(InitializePlayerStats(s, a), a, o, same), {a, o})
  {
    var s1 := InitializePlayerStats(s, a);
    InitializeRecords(s, a);
    RecordPassRecords(s1, a, o, same);
    AddsOneThenPair(s, s1, RecordPass(s1, a, o, same), a, o);
  }

  /** After an event a player has a record exactly when it had one before
      or the event concerns it; records are only ever added, at the end of
      the creation order, and no player gets two. */
  lemma ApplyRecords(s: Stats, e: FrameEvent)
    ensures Adds(s, Apply(s, e), Players(e))
  {
    match e
    case Idle =>
    case Hold(a) =>
      InitializeRecords(s, a);
    case Pass(a, o, same) =>
      PassRecords(s, a, o, same);
  }

  /** `update_frame_stats` leaves the statistics alone when frame `t` is
      past the end or nobody holds the ball there; otherwise the holder has
      a record afterwards, pass or not. No record is ever dropped. */
  lemma UpdateFrameStatsRecords(s: Stats, tr: Tracks, t: nat)
    requires UpdateDefined(tr, t)
    ensures t >= |tr.players| || Holder(tr, t).None? ==> UpdateFrameStats(s, tr, t) == s
    ensures t < |tr.players| && Holder(tr, t).Some? ==>
              HasKey(UpdateFrameStats(s, tr, t), tr.players[t][Holder(tr, t).value].0)
    ensures forall k :: HasKey(s, k) ==> HasKey(UpdateFrameStats(s, tr, t), k)
  {
    UpdateIsEvent(s, tr, t);
    EventAtMeans(tr, t);
    ApplyRecords(s, EventAt(tr, t));
  }

  // ---- Totals over all records ----

  /** The sum of counter `f` over all records. */
  function SumField(s: Stats, f: Field): nat {
    if |s| == 0 then 0 else SumField(s[..|s| - 1], f) + FieldOf(s[|s| - 1].1, f)
  }

  /** Replacing one record changes the total by the difference. */
  lemma {:induction false} SumReplace(s: Stats, i: nat, e: (int, Counters), f: Field)
    requires i < |s|
    ensures SumField(s[i := e], f) + FieldOf(s[i].1, f) == SumField(s, f) + FieldOf(e.1, f)
  {
    var n := |s|;
    if i < n - 1 {
      assert s[i := e][..n - 1] == s[..n - 1][i := e];
      SumReplace(s[..n - 1], i, e, f);
    } else {
      assert s[i := e][..n - 1] == s[..n - 1];
    }
  }

  /** Storing `v` under `id` moves the total by the difference between `v`
      and the counters `id` had (zero when it had none). */
  lemma PutSum(s: Stats, id: int, v: Counters, f: Field)
    ensures SumField(Put(s, id, v), f) + FieldOf(Counts(s, id), f) == SumField(s, f) + FieldOf(v, f)
  {
    match IndexOf(s, id)
    case Some(i) =>
      SumReplace(s, i, (id, v), f);
    case None =>
      assert (s + [(id, v)])[..|s|] == s;
  }

  /** Creating a record leaves every total as it was. */
  lemma InitializeSum(s: Stats, id: int, f: Field)
    ensures SumField(InitializePlayerStats(s, id), f) == SumField(s, f)
  {
    if !HasKey(s, id) {
      PutSum(s, id, Zero, f);
    }
  }

  /** Crediting one counter moves its total by one and no other total. */
  lemma CreditSum(s: Stats, id: int, g: Field, f: Field)
    requires HasKey(s, id)
    ensures SumField(Credit(s, id, g), f) == SumField(s, f) + (if f == g then 1 else 0)
  {
    PutSum(s, id, Bump(Counts(s, id), g), f);
  }

  /** An event adds `EventTotal` to each total. */
  lemma ApplySum(s: Stats, e: FrameEvent, f: Field)
    ensures SumField(Apply(s, e), f) == SumField(s, f) + EventTotal(e, f)
  {
    match e
    case Idle =>
    case Hold(a) =>
      InitializeSum(s, a, f);
    case Pass(a, o, same) =>
      var s1 := InitializePlayerStats(s, a);
      var s2 := InitializePlayerStats(s1, o);
      InitializeSum(s, a, f);
      InitializeSum(s1, o, f);
      if same {
        var c1 := Credit(s2, a, Successful);
        var c2 := Credit(c1, o, Received);
        CreditSum(s2, a, Successful, f);
        CreditSum(c1, o, Received, f);
        CreditSum(c2, a, Total, f);
      } else {
        CreditSum(s2, a, Total, f);
      }
  }

  // ---- A sequence of events ----

  /** Events as `EventAt` produces them: a pass is between two players. */
  predicate WellFormed(es: seq<FrameEvent>) {
    forall i :: 0 <= i < |es| ==> (es[i].Pass? ==> es[i].holder != es[i].receiver)
  }

  /** The statistics after applying `es` in order to a fresh tracker. */
  function ApplyAll(es: seq<FrameEvent>): Stats {
    if |es| == 0 then [] else Apply(ApplyAll(es[..|es| - 1]), es[|es| - 1])
  }

  /** What the events credit counter `f` of player `k`, summed. */
  function Credited(es: seq<FrameEvent>, k: int, f: Field): nat {
    if |es| == 0 then 0 else Credited(es[..|es| - 1], k, f) + EventCredit(es[|es| - 1], k, f)
  }

  /** What the events add to the total of counter `f`, summed. */
  function Passes(es: seq<FrameEvent>, f: Field): nat {
    if |es| == 0 then 0 else Passes(es[..|es| - 1], f) + EventTotal(es[|es| - 1], f)
  }

  /** Each counter of each player is the sum of what the events credit it. */
  lemma {:induction false} ApplyAllCounts(es: seq<FrameEvent>)
    requires WellFormed(es)
    ensures forall k, f :: FieldOf(Counts(ApplyAll(es), k), f) == Credited(es, k, f)
  {
    if |es| > 0 {
      var init := es[..|es| - 1];
      assert WellFormed(init) by {
        forall i | 0 <= i < |init| ensures (init[i].Pass? ==> init[i].holder != init[i].receiver) {
          assert init[i] == es[i];
        }
      }
      ApplyAllCounts(init);
      ApplyCounts(ApplyAll(init), es[|es| - 1]);
    }
  }

  /** Some event of `es` concerns player `k`. */
  predicate Concerned(es: seq<FrameEvent>, k: int) {
    exists i :: 0 <= i < |es| && Involved(es[i], k)
  }

  lemma ConcernedStep(es: seq<FrameEvent>, k: int)
    requires |es| > 0
    ensures Concerned(es, k) <==> Concerned(es[..|es| - 1], k) || Involved(es[|es| - 1], k)
  {
    var init := es[..|es| - 1];
    if Concerned(es, k) {
      var i :| 0 <= i < |es| && Involved(es[i], k);
      if i < |init| {
        assert init[i] == es[i];
      }
    }
    if Concerned(init, k) {
      var i :| 0 <= i < |init| && Involved(init[i], k);
      assert es[i] == init[i];
    }
  }

  /** A player has a record exactly when some event concerned it. */
  lemma {:induction false} ApplyAllRecords(es: seq<FrameEvent>, k: int)
    ensures HasKey(ApplyAll(es), k) <==> Concerned(es, k)
  {
    if |es| > 0 {
      var init := es[..|es| - 1];
      ApplyAllRecords(init, k);
      ApplyRecords(ApplyAll(init), es[|es| - 1]);
      ConcernedStep(es, k);
    }
  }

  /** No player has two records, and the records after a prefix of the
      events are a prefix of the records after all of them: players keep
      the order in which they were first concerned. */
  lemma {:induction false} ApplyAllOrder(es: seq<FrameEvent>, m: nat)
    requires m <= |es|
    ensures DistinctKeys(ApplyAll(es))
    ensures Keys(ApplyAll(es[..m])) <= Keys(ApplyAll(es))
  {
    if |es| > 0 {
      var init := es[..|es| - 1];
      ApplyRecords(ApplyAll(init), es[|es| - 1]);
      if m < |es| {
        assert es[..m] == init[..m];
        ApplyAllOrder(init, m);
      } else {
        assert es[..m] == es;
        ApplyAllOrder(init, 0);
      }
    }
  }

  /** The totals over all records are the totals of the events. */
  lemma {:induction false} ApplyAllTotals(es: seq<FrameEvent>, f: Field)
    ensures SumField(ApplyAll(es), f) == Passes(es, f)
  {
    if |es| > 0 {
      ApplyAllTotals(es[..|es| - 1], f);
      ApplySum(ApplyAll(es[..|es| - 1]), es[|es| - 1], f);
    }
  }

  lemma {:induction false} PassesBalance(es: seq<FrameEvent>)
    ensures Passes(es, Successful) == Passes(es, Received) <= Passes(es, Total)
  {
    if |es| > 0 {
      PassesBalance(es[..|es| - 1]);
    }
  }

  /** Every successful pass has exactly one receiver: over all players,
      successful passes and received passes add up to the same number, and
      never to more than the passes. */
  lemma SuccessfulEqualsReceived(es: seq<FrameEvent>)
    ensures SumField(ApplyAll(es), Successful) == SumField(ApplyAll(es), Received)
    ensures SumField(ApplyAll(es), Successful) <= SumField(ApplyAll(es), Total)
  {
    ApplyAllTotals(es, Successful);
    ApplyAllTotals(es, Received);
    ApplyAllTotals(es, Total);
    PassesBalance(es);
  }

  lemma {:induction false} CreditedSuccessWithinTotal(es: seq<FrameEvent>, k: int)
    ensures Credited(es, k, Successful) <= Credited(es, k, Total)
  {
    if |es| > 0 {
      CreditedSuccessWithinTotal(es[..|es| - 1], k);
    }
  }

  /** No player ever has more successful passes than passes. */
  lemma SuccessWithinTotal(es: seq<FrameEvent>, k: int)
    requires WellFormed(es)
    ensures Counts(ApplyAll(es), k).successfulPasses <= Counts(ApplyAll(es), k).totalPasses
  {
    ApplyAllCounts(es);
    assert FieldOf(Counts(ApplyAll(es), k), Successful) == Credited(es, k, Successful);
    assert FieldOf(Counts(ApplyAll(es), k), Total) == Credited(es, k, Total);
    CreditedSuccessWithinTotal(es, k);
  }

  lemma {:induction false} CreditedGrows(es: seq<FrameEvent>, m: nat, k: int, f: Field)
    requires m <= |es|
    ensures Credited(es[..m], k, f) <= Credited(es, k, f)
  {
    if m < |es| {
      var init := es[..|es| - 1];
      assert es[..m] == init[..m];
      CreditedGrows(init, m, k, f);
    } else {
      assert es[..m] == es;
    }
  }

  /** Counters never go down as events are applied. */
  lemma CountersGrow(es: seq<FrameEvent>, m: nat, k: int, f: Field)
    requires m <= |es| && WellFormed(es)
    ensures FieldOf(Counts(ApplyAll(es[..m]), k), f) <= FieldOf(Counts(ApplyAll(es), k), f)
  {
    assert WellFormed(es[..m]) by {
      forall i | 0 <= i < m ensures (es[..m][i].Pass? ==> es[..m][i].holder != es[..m][i].receiver) {
        assert es[..m][i] == es[i];
      }
    }
    ApplyAllCounts(es[..m]);
    ApplyAllCounts(es);
    CreditedGrows(es, m, k, f);
  }

  // ---- A whole run ----

  /** Every frame before `n` can be processed without raising. */
  predicate RunDefined(tr: Tracks, n: nat) {
    forall t: nat :: t < n ==> UpdateDefined(tr, t)
  }

  /** The events of frames `0 .. n - 1`. */
  function Events(tr: Tracks, n: nat): (es: seq<FrameEvent>)
    requires RunDefined(tr, n)
    ensures |es| == n && WellFormed(es)
  {
    if n == 0 then [] else Events(tr, n - 1) + [EventAt(tr, n - 1)]
  }

  /** The statistics after frames `0 .. n - 1`. */
  function RunStats(tr: Tracks, n: nat): Stats
    requires RunDefined(tr, n)
  {
    ApplyAll(Events(tr, n))
  }

  /** `RunStats` is what the drawing loop computes: a fresh tracker, then
      `update_frame_stats` for every frame in ascending order. */
  lemma RunIsFoldOfUpdates(tr: Tracks, n: nat)
    requires RunDefined(tr, n)
    ensures RunStats(tr, 0) == []
    ensures n > 0 ==> RunStats(tr, n) == UpdateFrameStats(RunStats(tr, n - 1), tr, n - 1)
  {
    if n > 0 {
      var es := Events(tr, n);
      assert es[..n - 1] == Events(tr, n - 1);
      UpdateIsEvent(RunStats(tr, n - 1), tr, n - 1);
    }
  }

  /** Calling the update for frames past the last tracked frame changes
      nothing, so driving it with more video frames than tracked frames
      gives the same statistics. */
  lemma {:induction false} RunPastLastFrame(tr: Tracks, n: nat)
    requires n >= |tr.players| && RunDefined(tr, n)
    ensures RunStats(tr, n) == RunStats(tr, |tr.players|)
  {
    if n > |tr.players| {
      RunPastLastFrame(tr, n - 1);
      assert Events(tr, n)[..n - 1] == Events(tr, n - 1);
      assert EventAt(tr, n - 1).Idle?;
    }
  }

  // ---- Live statistics text ----

  /** The part of a live statistics line after the player id. */
  function CountersText(c: Counters): string {
    ": Passes: " + (NatToString(c.totalPasses)
      + (" | Successful: " + (NatToString(c.successfulPasses)
      + (" | Received: " + NatToString(c.receivedPasses)))))
  }

  /** One line of `get_live_stats`. */
  function StatsLine(id: int, c: Counters): string {
    "Player " + (IntToString(id) + CountersText(c))
  }

  /** `get_live_stats()`: one line per record, in creation order. */
  function GetLiveStats(s: Stats): (lines: seq<string>)
    ensures |lines| == |s|
  {
    seq(|s|, i requires 0 <= i < |s| => StatsLine(s[i].0, s[i].1))
  }

  /** Reads the counters back from the text after the player id. */
  function ParseCounters(text: string): Option<Counters> {
    match Expect(": Passes: ", text)
    case None => None
    case Some(r2) =>
      match ReadNat(r2)
      case None => None
      case Some((total, r3)) =>
        match Expect(" | Successful: ", r3)
        case None => None
        case Some(r4) =>
          match ReadNat(r4)
          case None => None
          case Some((successful, r5)) =>
            match Expect(" | Received: ", r5)
            case None => None
            case Some(r6) =>
              match ReadNat(r6)
              case None => None
              case Some((received, r7)) =>
                if |r7| == 0 then Some(Counters(total, successful, received)) else None
  }

  /** Reads a line of the live statistics back into the record it shows. */
  function ParseStatsLine(line: string): Option<(int, Counters)> {
    match Expect("Player ", line)
    case None => None
    case Some(r0) =>
      match ReadInt(r0)
      case None => None
      case Some((id, r1)) =>
        match ParseCounters(r1)
        case None => None
        case Some(c) => Some((id, c))
  }

  /** The counters text shows all three counters. */
  lemma CountersTextRoundTrip(c: Counters)
    ensures ParseCounters(CountersText(c)) == Some(c)
  {
    var tail3 := " | Received: " + NatToString(c.receivedPasses);
    var tail2 := " | Successful: " + (NatToString(c.successfulPasses) + tail3);
    ExpectPrefix(": Passes: ", NatToString(c.totalPasses) + tail2);
    ReadNatAfterNatToString(c.totalPasses, tail2);
    ExpectPrefix(" | Successful: ", NatToString(c.successfulPasses) + tail3);
    ReadNatAfterNatToString(c.successfulPasses, tail3);
    ExpectPrefix(" | Received: ", NatToString(c.receivedPasses));
    ReadNatAfterNatToString(c.receivedPasses, "");
    assert NatToString(c.receivedPasses) + "" == NatToString(c.receivedPasses);
  }

  /** A live statistics line shows its record completely: reading it back
      gives the player id and all three counters. */
  lemma StatsLineRoundTrip(id: int, c: Counters)
    ensures ParseStatsLine(StatsLine(id, c)) == Some((id, c))
  {
    ExpectPrefix("Player ", IntToString(id) + CountersText(c));
    ReadIntAfterIntToString(id, CountersText(c));
    CountersTextRoundTrip(c);
  }

  /** The live statistics list every record, in creation order, and lose
      nothing: reading the lines back gives the records. */
  lemma LiveStatsRoundTrip(s: Stats)
    ensures forall i :: 0 <= i < |s| ==> ParseStatsLine(GetLiveStats(s)[i]) == Some(s[i])
  {
    forall i | 0 <= i < |s|
      ensures ParseStatsLine(GetLiveStats(s)[i]) == Some(s[i])
    {
      StatsLineRoundTrip(s[i].0, s[i].1);
    }
  }
}
