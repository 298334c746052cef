/** `IsBall`: the ball-candidate classifier. A candidate box passes when both
    the size check and the colour check pass. The colour check clusters the
    top half of the box's pixels into two colours and takes the cluster that
    does not dominate the four corners as the ball's colour. */
module IsBall {
  import opened Wrappers
  import opened Geometry

  // ---- Size check ----

  /** The size bounds `_is_valid_ball` hard-codes; the constructor's
      `min_ball_size` and `max_ball_size` are stored but never read. */
  const MinBallSize: real := 5.0
  const MaxBallSize: real := 20.0

  /** `_is_valid_ball(ball_bbox)`: width and height both strictly between the
      bounds. */
  function IsValidBall(b: Box): (ok: bool)
    ensures ok ==> Width(b) > 0.0 && Height(b) > 0.0
  {
    MinBallSize < Width(b) < MaxBallSize && MinBallSize < Height(b) < MaxBallSize
  }

  /** The size check rejects every box with a side of at most 5 or at least
      20 pixels, and accepts a 10 x 10 box wherever it sits. */
  lemma SizeCheckExamples(b: Box)
    ensures Width(b) <= 5.0 || Width(b) >= 20.0 || Height(b) <= 5.0 || Height(b) >= 20.0 ==> !IsValidBall(b)
    ensures Width(b) == 10.0 && Height(b) == 10.0 ==> IsValidBall(b)
  {
  }

  /** The verdict depends only on the box's extent: moving the box leaves it
      unchanged, and so does swapping width and height. */
  lemma SizeCheckIgnoresPlacement(b: Box, dx: real, dy: real)
    ensures IsValidBall(Box(b.x1 + dx, b.y1 + dy, b.x2 + dx, b.y2 + dy)) == IsValidBall(b)
    ensures IsValidBall(Box(b.y1, b.x1, b.y2, b.x2)) == IsValidBall(b)
  {
  }

  // ---- Corner vote ----

  /** A KMeans label with two clusters. */
  type Label = l: int | 0 <= l <= 1

  function Occurrences(xs: seq<Label>, l: Label): (n: nat)
    ensures n <= |xs|
  {
    if |xs| == 0 then 0 else Occurrences(xs[..|xs| - 1], l) + (if xs[|xs| - 1] == l then 1 else 0)
  }

  /** With two labels, every element is one or the other. */
  lemma {:induction false} OccurrencesSplit(xs: seq<Label>)
    ensures Occurrences(xs, 0) + Occurrences(xs, 1) == |xs|
  {
    if |xs| > 0 {
      OccurrencesSplit(xs[..|xs| - 1]);
    }
  }

  lemma {:induction false} OccurrencesPositive(xs: seq<Label>, l: Label)
    ensures Occurrences(xs, l) > 0 <==> l in xs
  {
    if |xs| > 0 {
      var init := xs[..|xs| - 1];
      OccurrencesPositive(init, l);
      assert xs == init + [xs[|xs| - 1]];
      assert l in xs <==> l in init || xs[|xs| - 1] == l;
    }
  }

  /** The iteration order of `set(xs)` for labels: CPython stores small
      integers by their value, so 0 comes before 1. */
  function SetOrder(xs: seq<Label>): (order: seq<Label>)
    ensures forall l: Label :: l in order <==> l in xs
    ensures |xs| > 0 ==> |order| > 0
    ensures forall i, j :: 0 <= i < j < |order| ==> order[i] != order[j]
  {
    assert |xs| > 0 ==> xs[0] in xs;
    (if 0 in xs then [0 as Label] else []) + (if 1 in xs then [1 as Label] else [])
  }

  /** `max(candidates, key=xs.count)`: scans the candidates in order and
      replaces the best one only by a strictly more frequent one. */
  function MaxByCount(xs: seq<Label>, candidates: seq<Label>): (m: Label)
    requires |candidates| > 0
    requires forall i, j :: 0 <= i < j < |candidates| ==> candidates[i] != candidates[j]
    ensures m in candidates
    ensures forall i :: 0 <= i < |candidates| ==> Occurrences(xs, candidates[i]) <= Occurrences(xs, m)
    ensures forall i :: 0 <= i < |candidates| && candidates[i] == m ==>
              forall j :: 0 <= j < i ==> Occurrences(xs, candidates[j]) < Occurrences(xs, m)
  {
    if |candidates| == 1 then candidates[0]
    else
      var best := MaxByCount(xs, candidates[..|candidates| - 1]);
      var last := candidates[|candidates| - 1];
      if Occurrences(xs, last) > Occurrences(xs, best) then last else best
  }

  /** `max(set(xs), key=xs.count)` on labels. */
  function MostFrequent(xs: seq<Label>): Label
    requires |xs| > 0
  {
    MaxByCount(xs, SetOrder(xs))
  }

  /** The most frequent label occurs at least as often as the other one,
      and a tie goes to label 0. */
  lemma MostFrequentIsMajority(xs: seq<Label>)
    requires |xs| > 0
    ensures MostFrequent(xs) in xs
    ensures forall l: Label :: Occurrences(xs, l) <= Occurrences(xs, MostFrequent(xs))
    ensures Occurrences(xs, 0) >= Occurrences(xs, 1) ==> MostFrequent(xs) == 0
    ensures Occurrences(xs, 1) > Occurrences(xs, 0) ==> MostFrequent(xs) == 1
  {
    var order := SetOrder(xs);
    forall l: Label
      ensures Occurrences(xs, l) <= Occurrences(xs, MostFrequent(xs))
    {
      OccurrencesPositive(xs, l);
      if l in xs {
        var i :| 0 <= i < |order| && order[i] == l;
      }
    }
    if Occurrences(xs, 0) >= Occurrences(xs, 1) {
      OccurrencesPositive(xs, 0);
      OccurrencesPositive(xs, 1);
      OccurrencesSplit(xs);
      assert 0 in xs;
      assert order[0] == 0;
    }
  }

  /** The four corner labels of the label grid, in the source's order:
      top-left, top-right, bottom-left, bottom-right. */
  function Corners(grid: seq<seq<Label>>): (cs: seq<Label>)
    requires |grid| > 0 && forall r :: 0 <= r < |grid| ==> |grid[r]| > 0
    ensures |cs| == 4
  {
    var last := |grid| - 1;
    [grid[0][0], grid[0][|grid[0]| - 1], grid[last][0], grid[last][|grid[last]| - 1]]
  }

  /** `ball_cluster = 1 - non_ball_cluster`: the label that does not win the
      corner vote. */
  function BallCluster(corners: seq<Label>): Label
    requires |corners| > 0
  {
    1 - MostFrequent(corners)
  }

  /** The ball cluster is never the label that wins the corner vote. */
  lemma BallClusterIsNotMajority(corners: seq<Label>)
    requires |corners| > 0
    ensures BallCluster(corners) != MostFrequent(corners)
    ensures Occurrences(corners, BallCluster(corners)) <= Occurrences(corners, MostFrequent(corners))
  {
    MostFrequentIsMajority(corners);
  }

  /** On four corners the ball cluster holds at most two of them, a 3-1 or
      4-0 vote makes it the minority label, and a 2-2 tie makes it label 1. */
  lemma BallClusterOfFourCorners(corners: seq<Label>)
    requires |corners| == 4
    ensures Occurrences(corners, BallCluster(corners)) <= 2
    ensures Occurrences(corners, 0) >= 3 ==> BallCluster(corners) == 1
    ensures Occurrences(corners, 1) >= 3 ==> BallCluster(corners) == 0
    ensures Occurrences(corners, 0) == 2 ==> BallCluster(corners) == 1
  {
    MostFrequentIsMajority(corners);
    OccurrencesSplit(corners);
  }

  // ---- Colour check ----

  /** A colour as a three-channel vector (a KMeans centre). */
  type Colour = (real, real, real)

  /** A rectangle of pixels of the frame: first row and column, and extent. */
  datatype Region = Region(top: nat, left: nat, rows: nat, cols: nat)

  /** Python's `a[start:stop]` on a sequence of length `len`: the first
      index taken and the number of elements. Negative bounds count from the
      end and all bounds are clipped to the sequence. */
  function Slice(len: nat, start: int, stop: int): (r: (nat, nat))
    ensures r.0 + r.1 <= len
    ensures 0 <= start <= stop <= len ==> r == (start, stop - start)
    ensures stop <= start && (start >= 0) == (stop >= 0) ==> r.1 == 0
  {
    var a := if start < 0 then (if start + len < 0 then 0 else start + len) else (if start > len then len else start);
    var b := if stop < 0 then (if stop + len < 0 then 0 else stop + len) else (if stop > len then len else stop);
    (a, if b > a then b - a else 0)
  }

  /** `frame[int(y1):int(y2), int(x1):int(x2)]` on a frame of the given size. */
  function Crop(frameRows: nat, frameCols: nat, b: Box): Region {
    var rows := Slice(frameRows, Trunc(b.y1), Trunc(b.y2));
    var cols := Slice(frameCols, Trunc(b.x1), Trunc(b.x2));
    Region(rows.0, cols.0, rows.1, cols.1)
  }

  /** `image[0:int(image.shape[0]/2), :]`: the first half of the rows,
      rounded down. */
  function TopHalf(r: Region): (h: Region)
    ensures h.top == r.top && h.left == r.left && h.cols == r.cols
    ensures h.rows * 2 <= r.rows < h.rows * 2 + 2
  {
    Region(r.top, r.left, r.rows / 2, r.cols)
  }

  /** What a two-cluster KMeans fit returns for a region: one label per pixel,
      row by row, and the two centres. */
  datatype Clustering = Clustering(labels: seq<seq<Label>>, centres: seq<Colour>)

  predicate Fits(c: Clustering, r: Region) {
    && |c.labels| == r.rows
    && (forall i :: 0 <= i < |c.labels| ==> |c.labels[i]| == r.cols)
    && |c.centres| == 2
  }

  /** The clustering the source runs (`get_clustering_model`), a parameter of
      the model. It is only asked about regions with at least two pixels,
      where scikit-learn fits and returns a label per pixel. */
  type KMeans = Region -> Clustering

  ghost predicate KMeansShape(kmeans: KMeans) {
    forall r: Region :: r.rows * r.cols >= 2 ==> Fits(kmeans(r), r)
  }

  /** The top half has enough pixels for a two-cluster fit. */
  predicate Clusterable(frameRows: nat, frameCols: nat, b: Box) {
    var top := TopHalf(Crop(frameRows, frameCols, b));
    top.rows * top.cols >= 2
  }

  /** `get_ball_color(frame, bbox)`: the centre of the cluster that loses
      the corner vote in the top half of the box. A top half with fewer than
      two pixels makes the clustering raise. */
  function GetBallColour(frameRows: nat, frameCols: nat, b: Box, kmeans: KMeans): (r: Result<Colour, string>)
    requires KMeansShape(kmeans)
    ensures r.Success? <==> Clusterable(frameRows, frameCols, b)
  {
    var top := TopHalf(Crop(frameRows, frameCols, b));
    if top.rows * top.cols < 2 then Failure("KMeans needs at least two pixels")
    else
      var c := kmeans(top);
      Success(c.centres[BallCluster(Corners(c.labels))])
  }

  /** The colour found is the centre of the cluster that holds at most two
      of the four corners: cluster 1 when three or four corners, or exactly
      two, are labelled 0, and cluster 0 when three or four are labelled 1. */
  lemma BallColourIsOtherCentre(frameRows: nat, frameCols: nat, b: Box, kmeans: KMeans)
    requires KMeansShape(kmeans) && Clusterable(frameRows, frameCols, b)
    ensures var c := kmeans(TopHalf(Crop(frameRows, frameCols, b)));
      var corners := Corners(c.labels);
      var colour := GetBallColour(frameRows, frameCols, b, kmeans);
      && (Occurrences(corners, 0) >= 3 ==> colour == Success(c.centres[1]))
      && (Occurrences(corners, 1) >= 3 ==> colour == Success(c.centres[0]))
      && (Occurrences(corners, 0) == 2 ==> colour == Success(c.centres[1]))
  {
    var c := kmeans(TopHalf(Crop(frameRows, frameCols, b)));
    BallClusterOfFourCorners(Corners(c.labels));
  }

  /** A box without height (inside the frame's top-left quadrant of
      coordinates, so Python's negative indices do not apply), or one starting at or below the frame's last
      row, leaves the top half empty, so the colour check raises. */
  lemma EmptyCropRaises(frameRows: nat, frameCols: nat, b: Box, kmeans: KMeans)
    requires KMeansShape(kmeans)
    requires (0.0 <= b.y2 <= b.y1) || b.y1 >= frameRows as real
    ensures GetBallColour(frameRows, frameCols, b, kmeans).Failure?
  {
    if 0.0 <= b.y2 <= b.y1 {
      TruncMonotone(b.y2, b.y1);
    } else {
      assert Trunc(b.y1) >= frameRows;
    }
  }

  /** How many pixels of a region `cv2.inRange` keeps for a colour range;
      a parameter of the model, as is the colour conversion before it. */
  type InRangeCount = (Region, Colour, Colour) -> nat

  /** `_filter_by_color(frame, bbox)`: some pixel of the box lies in the
      range whose lower and upper bounds are the colours two separate fits
      find. */
  function FilterByColour(frameRows: nat, frameCols: nat, b: Box, lowerFit: KMeans, upperFit: KMeans,
                          inRange: InRangeCount): (r: Result<bool, string>)
    requires KMeansShape(lowerFit) && KMeansShape(upperFit)
    ensures r.Success? <==> Clusterable(frameRows, frameCols, b)
  {
    var region := Crop(frameRows, frameCols, b);
    var lower := GetBallColour(frameRows, frameCols, b, lowerFit);
    var upper := GetBallColour(frameRows, frameCols, b, upperFit);
    // Both fits see the same crop, so they fail together.
    if lower.Failure? then Failure(lower.error)
    else Success(inRange(region, lower.value, upper.value) > 0)
  }

  /** `_classify_ball(ball_bbox, frame, tracked_positions)`: one point for
      the size check, one for the colour check, a ball above one point.
      `tracked_positions` is never read and is omitted. The colour check
      runs for every box, so a box the clustering cannot handle raises even
      when its size already rules it out. */
  function ClassifyBall(frameRows: nat, frameCols: nat, b: Box, lowerFit: KMeans, upperFit: KMeans,
                        inRange: InRangeCount): (r: Result<bool, string>)
    requires KMeansShape(lowerFit) && KMeansShape(upperFit)
    ensures r.Success? <==> Clusterable(frameRows, frameCols, b)
    ensures r.Success? ==>
              (r.value <==> IsValidBall(b) && FilterByColour(frameRows, frameCols, b, lowerFit, upperFit, inRange).value)
  {
    var score := if IsValidBall(b) then 1 else 0;
    var colour :- FilterByColour(frameRows, frameCols, b, lowerFit, upperFit, inRange);
    var score' := score + if colour then 1 else 0;
    Success(score' > 1)
  }

  /** A box of no height inside the frame fails the size check, yet the
      classification raises instead of answering "not a ball". */
  lemma FlatBoxRaises(frameRows: nat, frameCols: nat, b: Box, lowerFit: KMeans, upperFit: KMeans,
                      inRange: InRangeCount)
    requires KMeansShape(lowerFit) && KMeansShape(upperFit)
    requires 0.0 <= b.y1 == b.y2
    ensures !IsValidBall(b)
    ensures ClassifyBall(frameRows, frameCols, b, lowerFit, upperFit, inRange).Failure?
  {
    EmptyCropRaises(frameRows, frameCols, b, lowerFit);
  }
}
