/** `PassNetwork.construct_pass_network`: a directed graph whose edges join
    each ball holder to every other player of the same team in the same
    frame, and whose nodes also include each holder's team label. */
module PassNetwork {
  import opened Wrappers
  import opened Tracks

  /** A networkx `DiGraph` as the construction uses it: its node set and the
      `weight` attribute of each edge. Team labels and player ids share the
      one node space, as they do in the source. */
  datatype Graph = Graph(nodes: set<int>, weight: map<(int, int), int>)

  const EmptyGraph: Graph := Graph({}, map[])

  /** Every edge weight is 1. */
  predicate UnitWeights(g: Graph) {
    forall e :: e in g.weight ==> g.weight[e] == 1
  }

  /** The endpoints of a set of edges. */
  function Ends(es: set<(int, int)>): set<int> {
    (set e | e in es :: e.0) + (set e | e in es :: e.1)
  }

  lemma EndsOfUnion(a: set<(int, int)>, b: set<(int, int)>)
    ensures Ends(a + b) == Ends(a) + Ends(b)
  {
  }

  /** `graph.add_edge(u, v, weight=1)`: adds both endpoints and sets the
      weight to 1, replacing any earlier weight. */
  function AddEdge(g: Graph, u: int, v: int): (r: Graph)
    ensures r.nodes == g.nodes + {u, v}
    ensures r.weight.Keys == g.weight.Keys + {(u, v)}
    ensures r.weight[(u, v)] == 1
    ensures forall e :: e in g.weight && e != (u, v) ==> r.weight[e] == g.weight[e]
    ensures UnitWeights(g) ==> UnitWeights(r)
  {
    Graph(g.nodes + {u, v}, g.weight[(u, v) := 1])
  }

  /** A frame can be processed: when some record has the ball, every record
      has a team, since the holder's team and every other record's team are
      read (a missing one raises `KeyError`). */
  predicate FrameDefined(f: Frame) {
    forall i :: 0 <= i < |f| && f[i].1.hasBall ==> TeamsKnown(f)
  }

  predicate NetworkDefined(frames: seq<Frame>) {
    forall t :: 0 <= t < |frames| ==> FrameDefined(frames[t])
  }

  // ---- Reference definition: the edges and team nodes as sets ----

  /** The edges from `holder` to the records among the first `n` of the
      frame that are other players of team `team`. */
  function TargetEdges(f: Frame, holder: int, team: int, n: nat): set<(int, int)>
    requires n <= |f|
  {
    set j | 0 <= j < n && f[j].0 != holder && f[j].1.team == Some(team) :: (holder, f[j].0)
  }

  /** The edges from record `f[i]` to the other records of its team. */
  function HolderLinks(f: Frame, i: nat): set<(int, int)>
    requires i < |f|
  {
    set j | 0 <= j < |f| && f[j].0 != f[i].0 && f[j].1.team == f[i].1.team :: (f[i].0, f[j].0)
  }

  /** The edges the first `n` records of a frame produce as holders. */
  function HolderEdges(f: Frame, n: nat): set<(int, int)>
    requires n <= |f|
  {
    if n == 0 then {}
    else HolderEdges(f, n - 1) + if f[n - 1].1.hasBall then HolderLinks(f, n - 1) else {}
  }

  /** A frame's edges join a holder p to every other record q of p's team. */
  lemma {:induction false} HolderEdgesMeans(f: Frame, n: nat, p: int, q: int)
    requires n <= |f|
    ensures (p, q) in HolderEdges(f, n) <==>
            exists i, j :: 0 <= i < n && 0 <= j < |f| && f[i].1.hasBall && f[i].0 == p
              && f[j].0 == q && q != p && f[j].1.team == f[i].1.team
  {
    if n > 0 {
      HolderEdgesMeans(f, n - 1, p, q);
      if (p, q) in HolderEdges(f, n) && (p, q) !in HolderEdges(f, n - 1) {
        var j :| 0 <= j < |f| && f[j].0 != f[n - 1].0 && f[j].1.team == f[n - 1].1.team && (p, q) == (f[n - 1].0, f[j].0);
        assert f[n - 1].1.hasBall;
      }
      if exists i, j :: 0 <= i < n && 0 <= j < |f| && f[i].1.hasBall && f[i].0 == p
              && f[j].0 == q && q != p && f[j].1.team == f[i].1.team {
        var i, j :| 0 <= i < n && 0 <= j < |f| && f[i].1.hasBall && f[i].0 == p
              && f[j].0 == q && q != p && f[j].1.team == f[i].1.team;
        if i == n - 1 {
          assert (p, q) in HolderLinks(f, i);
        }
      }
    }
  }

  /** The team labels of the holders among the first `n` records. */
  function HolderTeams(f: Frame, n: nat): set<int>
    requires n <= |f|
  {
    if n == 0 then {}
    else HolderTeams(f, n - 1) + if f[n - 1].1.hasBall && f[n - 1].1.team.Some? then {f[n - 1].1.team.value} else {}
  }

  /** A frame's team nodes are the teams of its holders. */
  lemma {:induction false} HolderTeamsMeans(f: Frame, n: nat, x: int)
    requires n <= |f|
    ensures x in HolderTeams(f, n) <==> exists i :: 0 <= i < n && f[i].1.hasBall && f[i].1.team == Some(x)
  {
    if n > 0 {
      HolderTeamsMeans(f, n - 1, x);
      if exists i :: 0 <= i < n && f[i].1.hasBall && f[i].1.team == Some(x) {
        var i :| 0 <= i < n && f[i].1.hasBall && f[i].1.team == Some(x);
        if i < n - 1 {
          assert x in HolderTeams(f, n - 1);
        }
      }
    }
  }

  /** Edge (p, q) for a frame where p has the ball and q is another record
      of p's team. */
  function FrameEdges(f: Frame): set<(int, int)> {
    HolderEdges(f, |f|)
  }

  function FrameTeams(f: Frame): set<int> {
    HolderTeams(f, |f|)
  }

  /** The edges and team nodes of a whole sequence of frames. */
  function Edges(frames: seq<Frame>): set<(int, int)> {
    set t, e | 0 <= t < |frames| && e in FrameEdges(frames[t]) :: e
  }

  function Teams(frames: seq<Frame>): set<int> {
    set t, n | 0 <= t < |frames| && n in FrameTeams(frames[t]) :: n
  }

  /** The graph the construction is meant to produce. */
  predicate Describes(g: Graph, frames: seq<Frame>) {
    && g.nodes == Teams(frames) + Ends(Edges(frames))
    && g.weight.Keys == Edges(frames)
    && UnitWeights(g)
  }

  // ---- The construction, loop by loop ----

  /** The inner loop (lines 13-15) over the first `n` records: an edge from
      the holder to each other record of its team. The target's team is read
      only for records other than the holder. */
  function LinkTargets(g: Graph, f: Frame, holder: int, team: int, n: nat): (r: Graph)
    requires n <= |f|
    requires forall j :: 0 <= j < n && f[j].0 != holder ==> f[j].1.team.Some?
    ensures r.nodes == g.nodes + Ends(TargetEdges(f, holder, team, n))
    ensures r.weight.Keys == g.weight.Keys + TargetEdges(f, holder, team, n)
    ensures UnitWeights(g) ==> UnitWeights(r)
  {
    if n == 0 then g
    else
      var g' := LinkTargets(g, f, holder, team, n - 1);
      var target := f[n - 1];
      TargetEdgesStep(f, holder, team, n);
      if target.0 != holder && target.1.team.value == team then
        EndsOfUnion(TargetEdges(f, holder, team, n - 1), {(holder, target.0)});
        AddEdge(g', holder, target.0)
      else g'
  }

  lemma TargetEdgesStep(f: Frame, holder: int, team: int, n: nat)
    requires 0 < n <= |f|
    ensures TargetEdges(f, holder, team, n) ==
            TargetEdges(f, holder, team, n - 1)
            + (if f[n - 1].0 != holder && f[n - 1].1.team == Some(team) then {(holder, f[n - 1].0)} else {})
  {
  }

  /** The body of the middle loop for a record `f[i]` that has the ball
      (lines 10-15): its team label becomes a node if it is not one yet, then
      the holder is linked to its team mates. */
  function VisitHolder(g: Graph, f: Frame, i: nat): (r: Graph)
    requires i < |f| && f[i].1.hasBall && TeamsKnown(f)
    ensures Extends(r, g, {f[i].1.team.value}, HolderLinks(f, i))
  {
    var team := f[i].1.team.value;
    var g1 := if team in g.nodes then g else Graph(g.nodes + {team}, g.weight);
    assert TargetEdges(f, f[i].0, team, |f|) == HolderLinks(f, i);
    LinkTargets(g1, f, f[i].0, team, |f|)
  }

  /** The middle loop (lines 8-15) over the first `n` records of one frame:
      each holder adds its team label as a node and links to its team mates. */
  function VisitPlayers(g: Graph, f: Frame, n: nat): Graph
    requires n <= |f| && FrameDefined(f)
  {
    if n == 0 then g
    else
      var g' := VisitPlayers(g, f, n - 1);
      if f[n - 1].1.hasBall then VisitHolder(g', f, n - 1) else g'
  }

  /** The middle loop adds the holders' teams and the holders' edges. */
  lemma {:induction false} VisitPlayersExtends(g: Graph, f: Frame, n: nat)
    requires n <= |f| && FrameDefined(f)
    ensures Extends(VisitPlayers(g, f, n), g, HolderTeams(f, n), HolderEdges(f, n))
  {
    if n == 0 {
      NoHoldersYet(f);
      ExtendsByNothing(g, HolderTeams(f, n), HolderEdges(f, n));
    } else {
      VisitPlayersExtends(g, f, n - 1);
      if f[n - 1].1.hasBall {
        VisitHolderStep(g, f, n);
      } else {
        VisitOtherStep(g, f, n);
      }
    }
  }

  lemma VisitHolderStep(g: Graph, f: Frame, n: nat)
    requires 0 < n <= |f| && FrameDefined(f) && f[n - 1].1.hasBall
    requires Extends(VisitPlayers(g, f, n - 1), g, HolderTeams(f, n - 1), HolderEdges(f, n - 1))
    ensures Extends(VisitPlayers(g, f, n), g, HolderTeams(f, n), HolderEdges(f, n))
  {
    var g' := VisitPlayers(g, f, n - 1);
    var team := f[n - 1].1.team.value;
    ExtendGraph(g, g', VisitHolder(g', f, n - 1), HolderTeams(f, n - 1), HolderEdges(f, n - 1),
                {team}, HolderLinks(f, n - 1), HolderTeams(f, n), HolderEdges(f, n));
  }

  lemma VisitOtherStep(g: Graph, f: Frame, n: nat)
    requires 0 < n <= |f| && FrameDefined(f) && !f[n - 1].1.hasBall
    requires Extends(VisitPlayers(g, f, n - 1), g, HolderTeams(f, n - 1), HolderEdges(f, n - 1))
    ensures Extends(VisitPlayers(g, f, n), g, HolderTeams(f, n), HolderEdges(f, n))
  {
    SameExtension(VisitPlayers(g, f, n), g, HolderTeams(f, n - 1), HolderEdges(f, n - 1), HolderTeams(f, n), HolderEdges(f, n));
  }

  lemma SameExtension(r: Graph, g: Graph, ns: set<int>, es: set<(int, int)>, ns': set<int>, es': set<(int, int)>)
    requires Extends(r, g, ns, es) && ns == ns' && es == es'
    ensures Extends(r, g, ns', es')
  {
  }

  lemma NoHoldersYet(f: Frame)
    ensures HolderTeams(f, 0) == {} && HolderEdges(f, 0) == {}
  {
  }

  /** `r` adds nodes `ns` and edges `es` to `g`. */
  predicate Extends(r: Graph, g: Graph, ns: set<int>, es: set<(int, int)>) {
    && r.nodes == g.nodes + ns + Ends(es)
    && r.weight.Keys == g.weight.Keys + es
    && (UnitWeights(g) ==> UnitWeights(r))
  }

  /** Two extensions in a row are one extension by the unions. */
  lemma ExtendGraph(g: Graph, g': Graph, r: Graph, ns: set<int>, es: set<(int, int)>, ns': set<int>, es': set<(int, int)>,
                    allNodes: set<int>, allEdges: set<(int, int)>)
    requires Extends(g', g, ns, es) && Extends(r, g', ns', es')
    requires allNodes == ns + ns' && allEdges == es + es'
    ensures Extends(r, g, allNodes, allEdges)
  {
    EndsOfUnion(es, es');
  }

  lemma ExtendsByNothing(g: Graph, ns: set<int>, es: set<(int, int)>)
    requires ns == {} && es == {}
    ensures Extends(g, g, ns, es)
  {
    assert Ends(es) == {};
  }

  /** `construct_pass_network(player_tracks, team_ball_control)`: the outer
      loop (line 7) over the frames, in order. `team_ball_control` is never
      read and is omitted. */
  function ConstructPassNetwork(frames: seq<Frame>): (g: Graph)
    requires NetworkDefined(frames)
    ensures Describes(g, frames)
  {
    if |frames| == 0 then EmptyGraph
    else
      var init := frames[..|frames| - 1];
      var last := frames[|frames| - 1];
      var g' := ConstructPassNetwork(init);
      EdgesStep(frames);
      EndsOfUnion(Edges(init), FrameEdges(last));
      VisitPlayersExtends(g', last, |last|);
      VisitPlayers(g', last, |last|)
  }

  lemma EdgesStep(frames: seq<Frame>)
    requires |frames| > 0
    ensures Edges(frames) == Edges(frames[..|frames| - 1]) + FrameEdges(frames[|frames| - 1])
    ensures Teams(frames) == Teams(frames[..|frames| - 1]) + FrameTeams(frames[|frames| - 1])
  {
    var init := frames[..|frames| - 1];
    forall e | e in Edges(init)
      ensures e in Edges(frames)
    {
      var t :| 0 <= t < |init| && e in FrameEdges(init[t]);
      assert frames[t] == init[t];
    }
    forall e | e in Edges(frames)
      ensures e in Edges(init) + FrameEdges(frames[|frames| - 1])
    {
      var t :| 0 <= t < |frames| && e in FrameEdges(frames[t]);
      if t < |init| {
        assert frames[t] == init[t];
      }
    }
    forall n | n in Teams(init)
      ensures n in Teams(frames)
    {
      var t :| 0 <= t < |init| && n in FrameTeams(init[t]);
      assert frames[t] == init[t];
    }
    assert frames[|frames| - 1] == frames[|init|];
    forall e | e in FrameEdges(frames[|frames| - 1])
      ensures e in Edges(frames)
    {
    }
    forall n | n in FrameTeams(frames[|frames| - 1])
      ensures n in Teams(frames)
    {
    }
    forall n | n in Teams(frames)
      ensures n in Teams(init) + FrameTeams(frames[|frames| - 1])
    {
      var t :| 0 <= t < |frames| && n in FrameTeams(frames[t]);
      if t < |init| {
        assert frames[t] == init[t];
      }
    }
  }

  // ---- Properties of the constructed graph ----

  /** In a graph built from `frames`, edge (p, q) exists exactly when some
      frame has p holding the ball and q, a different record of the same
      frame, on p's team. */
  lemma EdgeMeans(g: Graph, frames: seq<Frame>, p: int, q: int)
    requires Describes(g, frames)
    ensures (p, q) in g.weight <==>
            exists t, i, j :: 0 <= t < |frames| && 0 <= i < |frames[t]| && 0 <= j < |frames[t]|
              && frames[t][i].1.hasBall && frames[t][i].0 == p
              && frames[t][j].0 == q && q != p && frames[t][j].1.team == frames[t][i].1.team
  {
    if (p, q) in g.weight {
      var t :| 0 <= t < |frames| && (p, q) in FrameEdges(frames[t]);
      HolderEdgesMeans(frames[t], |frames[t]|, p, q);
    }
    if exists t, i, j :: 0 <= t < |frames| && 0 <= i < |frames[t]| && 0 <= j < |frames[t]|
              && frames[t][i].1.hasBall && frames[t][i].0 == p
              && frames[t][j].0 == q && q != p && frames[t][j].1.team == frames[t][i].1.team {
      var t, i, j :| 0 <= t < |frames| && 0 <= i < |frames[t]| && 0 <= j < |frames[t]|
              && frames[t][i].1.hasBall && frames[t][i].0 == p
              && frames[t][j].0 == q && q != p && frames[t][j].1.team == frames[t][i].1.team;
      HolderEdgesMeans(frames[t], |frames[t]|, p, q);
      assert (p, q) in FrameEdges(frames[t]);
    }
  }

  /** No player is linked to itself. */
  lemma NoSelfLoops(g: Graph, frames: seq<Frame>)
    requires Describes(g, frames)
    ensures forall e :: e in g.weight ==> e.0 != e.1
  {
    forall e | e in g.weight
      ensures e.0 != e.1
    {
      var t :| 0 <= t < |frames| && e in FrameEdges(frames[t]);
      HolderEdgesMeans(frames[t], |frames[t]|, e.0, e.1);
    }
  }

  /** The team label of every holder is a node. */
  lemma HolderTeamIsNode(g: Graph, frames: seq<Frame>, t: nat, i: nat)
    requires Describes(g, frames)
    requires t < |frames| && i < |frames[t]| && frames[t][i].1.hasBall && frames[t][i].1.team.Some?
    ensures frames[t][i].1.team.value in g.nodes
  {
    var f := frames[t];
    var x := f[i].1.team.value;
    HolderTeamsMeans(f, |f|, x);
    assert x in FrameTeams(f);
    assert x in Teams(frames);
  }

  /** Frames in which nobody has the ball contribute nothing: without a
      holder anywhere the graph is empty. */
  lemma NoHolderNoGraph(frames: seq<Frame>)
    requires forall t, i :: 0 <= t < |frames| && 0 <= i < |frames[t]| ==> !frames[t][i].1.hasBall
    ensures NetworkDefined(frames)
    ensures ConstructPassNetwork(frames) == EmptyGraph
  {
    var g := ConstructPassNetwork(frames);
    forall t | 0 <= t < |frames|
      ensures FrameEdges(frames[t]) == {} && FrameTeams(frames[t]) == {}
    {
      NoHolderFrame(frames[t]);
    }
    assert g.weight == map[];
  }

  lemma NoHolderFrame(f: Frame)
    requires forall i :: 0 <= i < |f| ==> !f[i].1.hasBall
    ensures FrameEdges(f) == {} && FrameTeams(f) == {}
  {
    forall e | e in FrameEdges(f)
      ensures false
    {
      HolderEdgesMeans(f, |f|, e.0, e.1);
    }
    forall x | x in FrameTeams(f)
      ensures false
    {
      HolderTeamsMeans(f, |f|, x);
    }
  }

  /** Two graphs with the same nodes, the same edges and unit weights are
      equal. */
  lemma SameEdgesSameGraph(g: Graph, h: Graph)
    requires UnitWeights(g) && UnitWeights(h)
    requires g.nodes == h.nodes && g.weight.Keys == h.weight.Keys
    ensures g == h
  {
    assert g.weight == h.weight;
  }

  /** The graph depends on the frames only as a set: the order of frames
      and repeated frames do not matter. */
  lemma EdgesOfFrameSet(frames: seq<Frame>)
    ensures forall e :: e in Edges(frames) <==> exists f :: f in frames && e in FrameEdges(f)
    ensures forall n :: n in Teams(frames) <==> exists f :: f in frames && n in FrameTeams(f)
  {
    forall e | exists f :: f in frames && e in FrameEdges(f)
      ensures e in Edges(frames)
    {
      var f :| f in frames && e in FrameEdges(f);
      var t :| 0 <= t < |frames| && frames[t] == f;
    }
    forall n | exists f :: f in frames && n in FrameTeams(f)
      ensures n in Teams(frames)
    {
      var f :| f in frames && n in FrameTeams(f);
      var t :| 0 <= t < |frames| && frames[t] == f;
    }
  }

  lemma ReorderingFrames(a: seq<Frame>, b: seq<Frame>)
    requires NetworkDefined(a) && NetworkDefined(b)
    requires forall f :: f in a <==> f in b
    ensures ConstructPassNetwork(a) == ConstructPassNetwork(b)
  {
    EdgesOfFrameSet(a);
    EdgesOfFrameSet(b);
    assert Edges(a) == Edges(b);
    assert Teams(a) == Teams(b);
    SameEdgesSameGraph(ConstructPassNetwork(a), ConstructPassNetwork(b));
  }

  lemma EdgesOfConcatenation(a: seq<Frame>, b: seq<Frame>)
    ensures Edges(a + b) == Edges(a) + Edges(b)
    ensures Teams(a + b) == Teams(a) + Teams(b)
  {
    EdgesOfFrameSet(a);
    EdgesOfFrameSet(b);
    EdgesOfFrameSet(a + b);
  }

  lemma DescribesUnion(gab: Graph, ga: Graph, gb: Graph, a: seq<Frame>, b: seq<Frame>)
    requires Describes(gab, a + b) && Describes(ga, a) && Describes(gb, b)
    ensures gab == Graph(ga.nodes + gb.nodes, ga.weight + gb.weight)
  {
    EdgesOfConcatenation(a, b);
    EndsOfUnion(Edges(a), Edges(b));
    UnionOfGraphs(gab, ga, gb, Teams(a), Teams(b), Edges(a), Edges(b));
  }

  lemma UnionOfGraphs(gab: Graph, ga: Graph, gb: Graph, ta: set<int>, tb: set<int>, ea: set<(int, int)>, eb: set<(int, int)>)
    requires gab.nodes == (ta + tb) + Ends(ea + eb) && gab.weight.Keys == ea + eb && UnitWeights(gab)
    requires ga.nodes == ta + Ends(ea) && ga.weight.Keys == ea && UnitWeights(ga)
    requires gb.nodes == tb + Ends(eb) && gb.weight.Keys == eb && UnitWeights(gb)
    requires Ends(ea + eb) == Ends(ea) + Ends(eb)
    ensures gab == Graph(ga.nodes + gb.nodes, ga.weight + gb.weight)
  {
    var u := Graph(ga.nodes + gb.nodes, ga.weight + gb.weight);
    assert UnitWeights(u);
    SameEdgesSameGraph(gab, u);
  }

  /** Processing two frame sequences one after the other gives the union of
      their graphs. */
  lemma ConcatenationIsUnion(a: seq<Frame>, b: seq<Frame>)
    requires NetworkDefined(a) && NetworkDefined(b)
    ensures NetworkDefined(a + b)
    ensures ConstructPassNetwork(a + b).nodes == ConstructPassNetwork(a).nodes + ConstructPassNetwork(b).nodes
    ensures ConstructPassNetwork(a + b).weight == ConstructPassNetwork(a).weight + ConstructPassNetwork(b).weight
  {
    assert forall t :: 0 <= t < |a + b| ==> (a + b)[t] == if t < |a| then a[t] else b[t - |a|];
    DescribesUnion(ConstructPassNetwork(a + b), ConstructPassNetwork(a), ConstructPassNetwork(b), a, b);
  }
}
