# Football analysis: possession and pass analytics, modelled in Dafny

This project models the frame-by-frame analytics of the football analysis
pipeline. The pipeline turns per-frame player and ball tracks into:

- **Possession.** `PlayerBallAssigner.assign_ball_to_player` picks the
  player whose feet are nearest to the ball, within half the mean player
  box height.
- **The possession loop of `main.py`.** It writes `has_ball` on the
  assigned player and builds `team_ball_control`, carrying the last team
  forward over unassigned frames.
- **Pass statistics.** `PassStatsTracker` keeps per-player counters, fed
  by a one-frame look-ahead: a change of possessor while the ball is faster
  than 5 is a pass, and it is successful when both players are on the same
  team. The `get_live_stats` text lines are modelled too.
- **Ball classification.** `IsBall` combines a size check with a colour
  check. The colour check votes over the four corner labels of a two-cluster
  split of the top half of the box.
- **The pass network.** `PassNetwork.construct_pass_network` links each
  possessor to every same-team player in its frame.
- **Space occupancy.** `SpaceOccupancyAnalyzer` counts player positions per
  team in a grid of cells.

Python dictionaries are sequences of `(id, record)` entries in insertion
order (`OrderedMap`), because iteration order decides who is found first.
Coordinates, distances and speeds are reals. Python's `int()` of a float is
`Geometry.Trunc`, which truncates toward zero; `np.ceil` is `Geometry.Ceil`.
Every operation is a pure function or a method without heap state, so
"does not modify state" and "depends only on its arguments" hold by
construction.

Modules, one per file:

| file | module | models |
|---|---|---|
| `wrappers.dfy` | `Wrappers` | `Option` and `Result` |
| `ordered_map.dfy` | `OrderedMap` | dicts: lookup, `d[k] = v`, key order |
| `geometry.dfy` | `Geometry` | boxes, points, squared distance, `int()`, `ceil` |
| `tracks.dfy` | `Tracks` | player records, frames, the first `has_ball` record |
| `text.dfy` | `Text` | decimal rendering of integers and reading it back |
| `player_ball_assigner.dfy` | `PlayerBallAssigner` | `assign_ball_to_player` |
| `possession.dfy` | `Possession` | `main.py` lines 104-117 |
| `pass_stats_tracker.dfy` | `PassStatsTracker` | the tracker and the driver loop at `main.py` lines 142-145 |
| `is_ball.dfy` | `IsBall` | size check, corner vote, colour check with its oracles, score |
| `pass_network.dfy` | `PassNetwork` | `construct_pass_network` as node and edge sets |
| `space_occupancy.dfy` | `SpaceOccupancy` | grid dimensions and `analyze_space_control` |

In three places the code does something other than the natural reading of
the pipeline, and the model follows the code:

- **Degenerate ball boxes.** A fail-closed classifier would answer "not a
  ball". The code raises when the top half of the crop has fewer than two
  pixels, because KMeans cannot fit two clusters. So `IsBall.ClassifyBall`
  returns `Failure` there (`IsBall.FlatBoxRaises`).
- **Missing ball box.** A frame without a ball box could mean "no
  assignment", but `main.py` line 108 indexes ball track 1 unconditionally.
  So `Possession.BallsPresent` is a precondition of the loop.
- **Colour space.** Clustering and range test could share one colour space;
  the code fits the clusters on the BGR frame and tests the range in HSV. It also
  fits the lower and upper bounds with two separate KMeans runs, which the
  model keeps as two independent oracles.

## Model

| member | source | states |
|---|---|---|
| OrderedMap.Keys | pass_stats_tracker/pass_stats_tracker.py:20 | iterating a dict visits its keys in entry order, one per entry, and a key is listed exactly when a lookup finds it |
| OrderedMap.Get | pass_stats_tracker/pass_stats_tracker.py:54 | `d.get(k)` finds something exactly when the key is present, and what it finds is the value stored under that key (in its first entry) |
| OrderedMap.Put | pass_stats_tracker/pass_stats_tracker.py:12-16 | `d[k] = v` makes `k` read `v` and leaves every other key's value alone; an existing key keeps its place, a new one goes last; no key is duplicated and none lost |
| Geometry.Dist2 | player_ball_assigner/player_ball_assigner.py:29-30 | squared distances are non-negative, so comparing them is comparing distances |
| Geometry.Trunc | tactical_analysis/space_occupancy_analyzer.py:34-35 | `int()` of a float truncates toward zero: the result is within one of the input on the side of zero |
| Geometry.Ceil | tactical_analysis/space_occupancy_analyzer.py:17-18 | `np.ceil` gives the least integer not below its argument |
| Tracks.FirstHolder | pass_stats_tracker/pass_stats_tracker.py:39-43 | the possessor found is the first record with `has_ball` (and another id, for the receiver at lines 52-53); none is found exactly when no record qualifies |
| Text.NatToString | pass_stats_tracker/pass_stats_tracker.py:22 | a counter renders as a non-empty run of digits without a leading zero |
| Text.IntToString | pass_stats_tracker/pass_stats_tracker.py:22 | a player id renders with a minus sign exactly when it is negative |
| Text.ReadNatAfterNatToString | pass_stats_tracker/pass_stats_tracker.py:22 | a rendered counter reads back as itself, whatever non-digit text follows it |
| Text.ReadIntAfterIntToString | pass_stats_tracker/pass_stats_tracker.py:22 | a rendered player id reads back as itself, sign included |
| PlayerBallAssigner.MaxPlayerBallDistance | player_ball_assigner/player_ball_assigner.py:10-20 | the reach is the sum of the box heights over twice the player count, or 70 with no players |
| PlayerBallAssigner.ReachIsHalfMeanHeight | player_ball_assigner/player_ball_assigner.py:10-20 | if every box height lies between `lo` and `hi`, the reach lies between `lo/2` and `hi/2` |
| PlayerBallAssigner.FootDistance2 | player_ball_assigner/player_ball_assigner.py:29-31 | a player's distance is the smaller of the ball's distances to the two bottom corners of its box |
| PlayerBallAssigner.ScanPlayers | player_ball_assigner/player_ball_assigner.py:23-36 | the running choice is always a player already scanned |
| PlayerBallAssigner.ScanFindsChosen | player_ball_assigner/player_ball_assigner.py:26-36 | after scanning `n` players nobody is chosen exactly when none qualifies, and then the minimum is still 99999; otherwise the choice is the first player with the strictly smallest qualifying distance, and the minimum is its distance |
| PlayerBallAssigner.ChosenIsUnique | player_ball_assigner/player_ball_assigner.py:33-36 | at most one player fits the first-strict-minimum rule |
| PlayerBallAssigner.AssignBallToPlayer | player_ball_assigner/player_ball_assigner.py:9-38 | the answer is -1 or a key of the players dict |
| PlayerBallAssigner.AssignmentIsChosen | player_ball_assigner/player_ball_assigner.py:23-38 | a non -1 answer is the id of the first player with the strictly smallest distance below both the reach and 99999; it is -1 when nobody is that close, and, when no id is -1, only then |
| PlayerBallAssigner.NoPlayersNoAssignment | player_ball_assigner/player_ball_assigner.py:11-38 | with no players the answer is -1 |
| PlayerBallAssigner.LonePlayerWithinReach | player_ball_assigner/player_ball_assigner.py:10-36 | a single player within half its own height, and within 99999, of the ball gets it |
| Possession.AssignBallToPlayerAnswersWithKeys | main.py:109-112 | the assigner used by the loop only ever names -1 or a player of the frame |
| Possession.AssignedIndex | main.py:108-112 | the frame's outcome is "nobody" exactly when the assigner answers -1; otherwise it is the position of the answered id, taken from ball track 1's box |
| Possession.Outcomes | main.py:107-109 | there is one outcome per frame |
| Possession.LatestTeamNone | main.py:111-116 | no team is carried at frame `t` exactly when no frame up to `t` has an assignment |
| Possession.LatestTeamIsMostRecent | main.py:111-116 | the team carried at frame `t` is the team of the last assigned frame at or before `t` |
| Possession.FirstAssigned | main.py:107-116 | the first assigned frame before `n` is assigned and no earlier frame is; none exists exactly when no frame before `n` is assigned |
| Possession.WithPossession | main.py:111-112 | marking the possessor sets `has_ball` on that record only and changes nothing else in the frame |
| Possession.LabelFrame | main.py:107-116 | one loop iteration marks the assigned player and reports its team, or reports no team when the assigner answers -1 |
| Possession.ControlStep | main.py:111-116 | appending the frame's entry keeps `team_ball_control` starting at the first assigned frame, with each entry the latest assigned team at or before its frame |
| Possession.ControlStepAssigned | main.py:113 | on an assigned frame the appended entry is the possessor's team |
| Possession.ControlStepRepeat | main.py:114-116 | on an unassigned frame after the first assignment the repeated entry is still the latest assigned team |
| Possession.ProcessedStep | main.py:107-116 | one iteration extends the loop invariant by one frame |
| Possession.ProcessFrame | main.py:107-116 | one iteration, as code, preserves the loop invariant |
| Possession.AssignBallAcquisition | main.py:104-117 | the whole loop ends with every frame labelled and `team_ball_control` built as the invariant says |
| Possession.ProcessedMeans | main.py:104-117 | after the loop each frame keeps its records and ids, only `has_ball` changes and only on the assigned record; `team_ball_control` is empty without assignments, otherwise one entry per frame from the first assigned one (so one per frame when frame 0 is assigned), each the latest assigned team |
| Possession.PossessorIsAssignedPlayer | main.py:111-112 | in a frame without earlier flags, the first `has_ball` record after marking is exactly the assigned one, and no other record carries the flag |
| PassStatsTracker.Bump | pass_stats_tracker/pass_stats_tracker.py:62-65 | `+= 1` raises the named counter by one and no other |
| PassStatsTracker.InitializePlayerStats | pass_stats_tracker/pass_stats_tracker.py:10-16 | afterwards the player has a record with its old counters (zero if it was new); other players are untouched; a new record goes last |
| PassStatsTracker.InitializeIsIdempotent | pass_stats_tracker/pass_stats_tracker.py:10-16 | creating a record twice is creating it once: an existing record is never reset |
| PassStatsTracker.Credit | pass_stats_tracker/pass_stats_tracker.py:62-65 | crediting bumps one counter of one existing record and keeps the key order |
| PassStatsTracker.EventAt | pass_stats_tracker/pass_stats_tracker.py:39-66 | a detected pass is always between two different players |
| PassStatsTracker.EventAtMeans | pass_stats_tracker/pass_stats_tracker.py:36-66 | nothing happens past the last frame or without a possessor; the possessor is the first `has_ball` record; a pass happens exactly when frame `t+1` exists, another player has the ball there and the speed at `t` (0 when missing) exceeds 5; it is successful exactly when the two teams are equal |
| PassStatsTracker.UpdateIsEvent | pass_stats_tracker/pass_stats_tracker.py:35-66 | `update_frame_stats` is the application of the frame's event, whatever the stats were |
| PassStatsTracker.UpdateFrameStatsRecords | pass_stats_tracker/pass_stats_tracker.py:36-48 | out-of-range frames and frames without a possessor leave the stats unchanged; otherwise the possessor has a record afterwards, pass or not; no record is lost |
| PassStatsTracker.InitializeKeepsCounts | pass_stats_tracker/pass_stats_tracker.py:10-16 | creating a record changes no counter of anybody |
| PassStatsTracker.CreditMovesOneCounter | pass_stats_tracker/pass_stats_tracker.py:62-65 | crediting moves exactly one counter of one player, by one |
| PassStatsTracker.SameTeamPassCounts | pass_stats_tracker/pass_stats_tracker.py:58-65 | a same-team pass adds one pass and one success to the passer and one reception to the receiver, and nothing else |
| PassStatsTracker.RecordPassCounts | pass_stats_tracker/pass_stats_tracker.py:56-65 | a pass moves exactly the counters the event names: a cross-team pass only the passer's total, and the receiver's total never |
| PassStatsTracker.ApplyCounts | pass_stats_tracker/pass_stats_tracker.py:48-66 | every player's counters grow by exactly what the frame's event credits them |
| PassStatsTracker.InitializeRecords | pass_stats_tracker/pass_stats_tracker.py:10-16 | creating a record adds that player at most, at the end |
| PassStatsTracker.CreditRecords | pass_stats_tracker/pass_stats_tracker.py:62-65 | crediting adds no record |
| PassStatsTracker.RecordPassRecords | pass_stats_tracker/pass_stats_tracker.py:56-65 | recording a pass adds records for its two players and nobody else, at the end |
| PassStatsTracker.PassRecords | pass_stats_tracker/pass_stats_tracker.py:48-66 | a frame with a pass adds records for the passer and receiver only |
| PassStatsTracker.ApplyRecords | pass_stats_tracker/pass_stats_tracker.py:48-66 | after a frame a player has a record exactly when it had one or the frame concerns it; records are only appended; no player gets two |
| PassStatsTracker.InitializeSum | pass_stats_tracker/pass_stats_tracker.py:10-16 | creating a record leaves every total over all players unchanged |
| PassStatsTracker.CreditSum | pass_stats_tracker/pass_stats_tracker.py:62-65 | crediting a counter raises its total over all players by one and no other total |
| PassStatsTracker.ApplySum | pass_stats_tracker/pass_stats_tracker.py:56-65 | a frame raises the total of passes by one per pass, and the totals of successes and receptions by one per same-team pass |
| PassStatsTracker.ApplyAllCounts | pass_stats_tracker/pass_stats_tracker.py:35-66 | after a run each counter of each player is the sum of what the frames credited it |
| PassStatsTracker.ApplyAllRecords | pass_stats_tracker/pass_stats_tracker.py:39-56 | after a run a player has a record exactly when some frame had it as possessor or receiver |
| PassStatsTracker.ApplyAllOrder | pass_stats_tracker/pass_stats_tracker.py:10-16 | no player ever has two records, and records keep the order in which players were first seen |
| PassStatsTracker.ApplyAllTotals | pass_stats_tracker/pass_stats_tracker.py:56-65 | each total over all players is the number of passes (or same-team passes) in the run |
| PassStatsTracker.PassesBalance | pass_stats_tracker/pass_stats_tracker.py:58-65 | over any run the same-team passes are counted once as successes and once as receptions, and never exceed the passes |
| PassStatsTracker.SuccessfulEqualsReceived | pass_stats_tracker/pass_stats_tracker.py:58-65 | summed over all players, successful passes equal received passes and are at most the total passes |
| PassStatsTracker.SuccessWithinTotal | pass_stats_tracker/pass_stats_tracker.py:58-65 | no player has more successful passes than passes |
| PassStatsTracker.CountersGrow | pass_stats_tracker/pass_stats_tracker.py:62-65 | counters never decrease as frames are processed |
| PassStatsTracker.Events | main.py:142-145 | a run has one event per frame, each a well-formed event |
| PassStatsTracker.RunIsFoldOfUpdates | main.py:142-145 | the statistics after `n` frames are a fresh tracker updated once per frame, in ascending order |
| PassStatsTracker.RunPastLastFrame | pass_stats_tracker/pass_stats_tracker.py:36-37 | driving the update with more video frames than tracked frames gives the same statistics |
| PassStatsTracker.GetLiveStats | pass_stats_tracker/pass_stats_tracker.py:18-24 | there is one live line per record |
| PassStatsTracker.CountersTextRoundTrip | pass_stats_tracker/pass_stats_tracker.py:22 | the text after the id shows the three counters in order, and they read back |
| PassStatsTracker.StatsLineRoundTrip | pass_stats_tracker/pass_stats_tracker.py:22 | a live line shows its record completely: reading it back gives the id and the three counters |
| PassStatsTracker.LiveStatsRoundTrip | pass_stats_tracker/pass_stats_tracker.py:18-24 | the live lines list every record in creation order and lose nothing |
| IsBall.IsValidBall | is_ball/is_ball.py:25-30 | a box of zero or negative width or height never passes the size check |
| IsBall.SizeCheckExamples | is_ball/is_ball.py:25-30 | a width or height of 5 or less, or 20 or more, fails: both bounds are strict, for width and for height alike; a 10 by 10 box passes |
| IsBall.SizeCheckIgnoresPlacement | is_ball/is_ball.py:28-30 | the size check depends only on width and height: moving or transposing the box does not change it |
| IsBall.Occurrences | is_ball/is_ball.py:39 | `list.count` is at most the list's length |
| IsBall.OccurrencesSplit | is_ball/is_ball.py:39 | with labels in {0, 1} the two counts add up to the length |
| IsBall.SetOrder | is_ball/is_ball.py:39 | `set(corners)` holds exactly the labels that occur, each once, and is non-empty for a non-empty list |
| IsBall.MaxByCount | is_ball/is_ball.py:39 | `max(..., key=count)` returns a candidate with the largest count, the first such in iteration order |
| IsBall.MostFrequentIsMajority | is_ball/is_ball.py:39 | the most frequent corner label occurs, has the largest count, and is 0 on a tie |
| IsBall.Corners | is_ball/is_ball.py:38 | there are always four corner labels |
| IsBall.BallClusterIsNotMajority | is_ball/is_ball.py:39-40 | the ball cluster is the other label, never the most frequent one |
| IsBall.BallClusterOfFourCorners | is_ball/is_ball.py:38-40 | the ball label covers at most two corners; three or four corners of one label make the other the ball label; a 2-2 split makes label 1 the ball label |
| IsBall.Slice | is_ball/is_ball.py:33 | a Python slice of a length-`len` axis stays in range, is the plain range when the bounds are in order and in range, and is empty when the stop is not past the start on the same side of zero |
| IsBall.TopHalf | is_ball/is_ball.py:34 | the top half keeps the crop's corner and columns and has half its rows, rounded down |
| IsBall.GetBallColour | is_ball/is_ball.py:32-43 | a colour is found exactly when the top half has at least two pixels; otherwise the clustering raises |
| IsBall.BallColourIsOtherCentre | is_ball/is_ball.py:38-41 | the colour is the centre of cluster 1 when three or more corners, or exactly two, are labelled 0, and of cluster 0 when three or more are labelled 1 |
| IsBall.EmptyCropRaises | is_ball/is_ball.py:33-35 | a box whose bottom is not below its top, or that starts below the frame, makes the colour step raise |
| IsBall.FilterByColour | is_ball/is_ball.py:46-54 | the colour filter answers exactly when the top half of the crop can be clustered |
| IsBall.ClassifyBall | is_ball/is_ball.py:57-64 | the classifier answers exactly when the colour step can run, even for boxes failing the size check, and then says "ball" exactly when both the size and the colour checks pass |
| IsBall.FlatBoxRaises | is_ball/is_ball.py:57-64 | a box of zero height fails the size check yet still makes the classifier raise |
| PassNetwork.AddEdge | tactical_analysis/pass_network.py:15 | adding an edge adds its ends as nodes and the edge with weight 1, and leaves every other edge's weight alone |
| PassNetwork.HolderEdgesMeans | tactical_analysis/pass_network.py:8-15 | within a frame, (p, q) is linked exactly when p has the ball and q is another player of the same team |
| PassNetwork.HolderTeamsMeans | tactical_analysis/pass_network.py:9-12 | within a frame, the team nodes are exactly the teams of the players with the ball |
| PassNetwork.LinkTargets | tactical_analysis/pass_network.py:13-15 | the inner loop adds the possessor's links to the same-team players it scans, with their ends and weight 1 |
| PassNetwork.VisitHolder | tactical_analysis/pass_network.py:9-15 | visiting a possessor adds its team as a node and its links as edges |
| PassNetwork.VisitPlayersExtends | tactical_analysis/pass_network.py:8-15 | visiting a frame's records adds exactly that frame's team nodes and links |
| PassNetwork.ConstructPassNetwork | tactical_analysis/pass_network.py:5-16 | the graph's nodes are the possessors' teams plus the ends of the edges, its edges are the links of all frames, and every weight is 1 |
| PassNetwork.EdgeMeans | tactical_analysis/pass_network.py:7-15 | (p, q) is an edge exactly when some frame has p with the ball and another player q of the same team |
| PassNetwork.NoSelfLoops | tactical_analysis/pass_network.py:14 | no edge links a player to itself |
| PassNetwork.HolderTeamIsNode | tactical_analysis/pass_network.py:10-12 | every possessor's team is a node |
| PassNetwork.NoHolderFrame | tactical_analysis/pass_network.py:8-9 | a frame without a possessor contributes no node and no edge |
| PassNetwork.NoHolderNoGraph | tactical_analysis/pass_network.py:7-9 | frames without possessors, and no frames at all, give the empty graph |
| PassNetwork.SameEdgesSameGraph | tactical_analysis/pass_network.py:15 | since every weight is 1, a graph is fixed by its nodes and edges |
| PassNetwork.EdgesOfFrameSet | tactical_analysis/pass_network.py:7 | the edges and team nodes depend only on which frames occur, not on their order or repetition |
| PassNetwork.ReorderingFrames | tactical_analysis/pass_network.py:7-9 | reordering or repeating frames does not change the graph |
| PassNetwork.EdgesOfConcatenation | tactical_analysis/pass_network.py:7 | the links and teams of two frame lists together are the unions of each |
| PassNetwork.ConcatenationIsUnion | tactical_analysis/pass_network.py:7-16 | the graph of two frame lists together is the union of their graphs |
| SpaceOccupancy.NewAnalyzer | tactical_analysis/space_occupancy_analyzer.py:5-18 | the grid has `ceil(length / size)` rows and `ceil(width / size)` columns |
| SpaceOccupancy.DefaultGridIsElevenBySeven | tactical_analysis/space_occupancy_analyzer.py:5-18 | the default 68 by 105 field with cells of 10 gives 11 rows and 7 columns |
| SpaceOccupancy.NegativeFractionLandsInFirstCell | tactical_analysis/space_occupancy_analyzer.py:34-35 | coordinates strictly between minus one cell and one cell land in row 0 and column 0, because `int()` truncates toward zero |
| SpaceOccupancy.Slot | tactical_analysis/space_occupancy_analyzer.py:38 | team `t` goes to slot `t - 1` with numpy's negative-index wrap, always one of the two slots |
| SpaceOccupancy.SampleCell | tactical_analysis/space_occupancy_analyzer.py:34-38 | a counted sample lands in a cell inside the grid |
| SpaceOccupancy.FrameSamples | tactical_analysis/space_occupancy_analyzer.py:29-38 | a frame yields at most one sample per record, each inside the grid |
| SpaceOccupancy.Samples | tactical_analysis/space_occupancy_analyzer.py:28-38 | every sample of a run lands inside the grid |
| SpaceOccupancy.Zeros | tactical_analysis/space_occupancy_analyzer.py:26 | the grid starts with the analyser's shape and every count 0 |
| SpaceOccupancy.Increment | tactical_analysis/space_occupancy_analyzer.py:38 | `+= 1` raises one count by one and no other |
| SpaceOccupancy.VisitRecords | tactical_analysis/space_occupancy_analyzer.py:29-38 | visiting a frame adds to each cell the number of the frame's samples in it |
| SpaceOccupancy.VisitFrames | tactical_analysis/space_occupancy_analyzer.py:28-38 | visiting frames adds to each cell the number of their samples in it |
| SpaceOccupancy.AnalyzeSpaceControl | tactical_analysis/space_occupancy_analyzer.py:20-40 | each cell's count is the number of qualifying samples that land in it |
| SpaceOccupancy.SamplesOfConcatenation | tactical_analysis/space_occupancy_analyzer.py:28-29 | the samples of two frame lists together are those of the first followed by those of the second |
| SpaceOccupancy.ConcatenationAddsCounts | tactical_analysis/space_occupancy_analyzer.py:28-38 | analysing two frame lists together gives the cellwise sum of the separate results |
| SpaceOccupancy.UncountedFrameAddsNothing | tactical_analysis/space_occupancy_analyzer.py:30-37 | a frame whose records lack a team or a position, or fall outside the grid, changes no count |
| SpaceOccupancy.NothingCounted | tactical_analysis/space_occupancy_analyzer.py:33-37 | such a frame yields no sample |
| SpaceOccupancy.ZerosTotal | tactical_analysis/space_occupancy_analyzer.py:26 | the fresh grid totals 0 |
| SpaceOccupancy.IncrementTotal | tactical_analysis/space_occupancy_analyzer.py:38 | each increment raises the grid total by one |
| SpaceOccupancy.VisitRecordsTotal | tactical_analysis/space_occupancy_analyzer.py:29-38 | visiting a frame raises the total by its number of samples |
| SpaceOccupancy.VisitFramesTotal | tactical_analysis/space_occupancy_analyzer.py:28-38 | visiting frames raises the total by their number of samples |
| SpaceOccupancy.TotalIsSampleCount | tactical_analysis/space_occupancy_analyzer.py:26-38 | the counts add up to the number of qualifying in-grid samples |

## Left out

- The drawing and file output are not modelled: `PassNetwork.visualize`, `SpaceOccupancyAnalyzer.visualize_space_occupancy`, `print_stats` and the overlay drawing in `main.py`.
- The rest of `main.py` is not modelled: video input and output, the detector and tracker, camera motion, view transform, speed estimation and team assignment. Their results appear as the input tracks, whose ball `speed` and player `team` fields are given data.
- `team_ball_control` is passed to `construct_pass_network` and `update_frame_stats`, but neither reads it. The model omits the argument, so it cannot affect the result.
- `PlayerBallAssigner` stores the reach in `self.max_player_ball_distance` and overwrites it before every use, so the model recomputes it per call.
- `utils` is not part of this model. The modelled versions of its helpers:
  - `get_bbox_height` is `y2 - y1`;
  - `measure_distance` is Euclidean, compared on squares;
  - `get_center_of_bbox` is a parameter, because its rounding is not shown.
- Floating point rounding is not modelled: coordinates, heights, speeds and distances are reals.
- The numpy grid holds float counts; the model holds them as natural numbers, since only `+= 1` from zero touches them.
- KMeans, `cv2.cvtColor` and `cv2.inRange` are parameters:
  - each KMeans fit is a function from a pixel region to labels and two centres, required to fit the region whenever it has at least two pixels;
  - the two fits in `_filter_by_color` are independent;
  - the range test is a function of the region and the two colours.
- The pixel values of the frame are not modelled, only its dimensions.
- `IsBall.__init__` stores `min_ball_size`, `max_ball_size`, `color_threshold`, `stationary_threshold` and `penalty_threshold`, but no modelled code reads them. `_is_valid_ball` uses its own constants 5 and 20, and so does the model.
- `_classify_ball` takes `tracked_positions` and never reads it, so the model omits it.
- Missing `team` keys and a missing ball track 1 raise `KeyError` in the source. The model states them as preconditions:
  - `Possession.BallsPresent` and `Possession.ValidOutcomes`;
  - `PassStatsTracker.UpdateDefined`, for the `team` reads at `pass_stats_tracker.py` lines 59-60. It also requires the ball list to reach frame `t` when a handover is seen, because `tracks['ball'][frame_num]` at line 54 would raise `IndexError` otherwise. A missing ball track 1 does not raise there: `.get(1, {})` gives speed 0;
  - `PassNetwork.NetworkDefined`.
- Team labels and player ids share one node space in the pass network, as they do in the source. A team label equal to a player id is one node.
- Team labels outside -1..2 would make numpy raise an index error, so they are excluded by `SpaceOccupancy.RecordDefined` and, for whole runs, `SpaceOccupancy.FramesDefined`; those predicates exclude nothing else, since a record without a team or pitch position is skipped without raising. Teams 0 and -1 wrap to slots 1 and 0, as numpy does.
- `kalman_filter/kalman_filter.py` and `player_heatmap/player_heatmap.py` are not part of this model: they are matrix numerics and rasterisation with no decision logic.
- IsBall.IsValidBall: its own contract states only that an accepted box has positive width and height. The bounds themselves are stated by `IsBall.SizeCheckExamples` and the placement invariance by `IsBall.SizeCheckIgnoresPlacement`.
