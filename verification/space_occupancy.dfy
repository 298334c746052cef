/** `SpaceOccupancyAnalyzer`: bins the pitch positions of the players into
    a grid of square cells and counts, per cell, the samples of each team. */
module SpaceOccupancy {
  import opened Wrappers
  import opened Geometry
  import opened Tracks

  /** The analyser's configuration, in metres, and the grid size derived from
      it at construction. */
  datatype Analyzer = Analyzer(fieldWidth: real, fieldLength: real, gridSize: real, gridRows: int, gridCols: int)

  /** `SpaceOccupancyAnalyzer(field_width, field_length, grid_size)`: the
      grid has as many rows as cells of `grid_size` needed to cover the
      length, and as many columns as needed to cover the width. A zero
      `grid_size` raises `ZeroDivisionError`. */
  function NewAnalyzer(fieldWidth: real, fieldLength: real, gridSize: real): (a: Analyzer)
    requires gridSize != 0.0
    ensures a.fieldWidth == fieldWidth && a.fieldLength == fieldLength && a.gridSize == gridSize
    ensures fieldLength / gridSize <= a.gridRows as real < fieldLength / gridSize + 1.0
    ensures fieldWidth / gridSize <= a.gridCols as real < fieldWidth / gridSize + 1.0
  {
    Analyzer(fieldWidth, fieldLength, gridSize, Ceil(fieldLength / gridSize), Ceil(fieldWidth / gridSize))
  }

  /** The defaults: a 68 m by 105 m pitch in 10 m cells. */
  const DefaultAnalyzer: Analyzer := NewAnalyzer(68.0, 105.0, 10.0)

  /** With the defaults the grid has 11 rows and 7 columns: 10.5 and 6.8
      round up. */
  lemma DefaultGridIsElevenBySeven()
    ensures DefaultAnalyzer.gridRows == 11 && DefaultAnalyzer.gridCols == 7
  {
    var a := DefaultAnalyzer;
    assert 10.5 <= a.gridRows as real < 11.5;
    assert 6.8 <= a.gridCols as real < 7.8;
  }

  /** The analysis can run: `np.zeros` accepts no negative dimension, which
      a negative `grid_size` would give. */
  predicate Valid(a: Analyzer) {
    a.gridSize != 0.0 && a.gridRows >= 0 && a.gridCols >= 0
  }

  // ---- Where a sample lands ----

  /** A counter of the grid: row, column and team slot. */
  datatype Cell = Cell(row: int, col: int, slot: int)

  /** `row = int(position[1] / grid_size)`, `col = int(position[0] / grid_size)`:
      each coordinate divided by the cell size and truncated toward zero. */
  function RowOf(a: Analyzer, p: Point): int
    requires a.gridSize != 0.0
  {
    Trunc(p.y / a.gridSize)
  }

  function ColOf(a: Analyzer, p: Point): int
    requires a.gridSize != 0.0
  {
    Trunc(p.x / a.gridSize)
  }

  /** A coordinate in (-grid_size, 0) lands in index 0, the same cell as the
      first grid_size metres: truncation toward zero, not flooring. */
  lemma NegativeFractionLandsInFirstCell(a: Analyzer, p: Point)
    requires a.gridSize > 0.0
    requires -a.gridSize < p.x < a.gridSize && -a.gridSize < p.y < a.gridSize
    ensures RowOf(a, p) == 0 && ColOf(a, p) == 0
  {
    QuotientBelowOne(p.x, a.gridSize);
    QuotientBelowOne(p.y, a.gridSize);
  }

  lemma QuotientBelowOne(x: real, d: real)
    requires d > 0.0 && -d < x < d
    ensures -1.0 < x / d < 1.0
  {
    assert (x / d) * d == x;
  }

  /** `team - 1` as a numpy index into an axis of length 2: team 1 is slot
      0, team 2 slot 1, and a team of 0 or -1 wraps around from the end.
      Any other team raises `IndexError`. */
  predicate TeamIndexable(team: int) {
    -1 <= team <= 2
  }

  function Slot(team: int): (s: int)
    requires TeamIndexable(team)
    ensures 0 <= s < 2
    ensures s == (team - 1) % 2
  {
    if team - 1 < 0 then team - 1 + 2 else team - 1
  }

  predicate InGrid(a: Analyzer, row: int, col: int) {
    0 <= row < a.gridRows && 0 <= col < a.gridCols
  }

  /** A record is counted when it has a team and a pitch position and its
      cell lies inside the grid; anything else is skipped silently. */
  predicate Counted(a: Analyzer, p: PlayerTrack)
    requires a.gridSize != 0.0
  {
    p.team.Some? && p.position.Some? && InGrid(a, RowOf(a, p.position.value), ColOf(a, p.position.value))
  }

  /** A counted record's team must be a valid index. */
  predicate RecordDefined(a: Analyzer, p: PlayerTrack)
    requires a.gridSize != 0.0
  {
    Counted(a, p) ==> TeamIndexable(p.team.value)
  }

  predicate FrameDefined(a: Analyzer, f: Frame)
    requires a.gridSize != 0.0
  {
    forall i :: 0 <= i < |f| ==> RecordDefined(a, f[i].1)
  }

  predicate FramesDefined(a: Analyzer, frames: seq<Frame>)
    requires a.gridSize != 0.0
  {
    forall t :: 0 <= t < |frames| ==> FrameDefined(a, frames[t])
  }

  predicate InShape(a: Analyzer, c: Cell) {
    InGrid(a, c.row, c.col) && 0 <= c.slot < 2
  }

  /** The counter a counted record increments. */
  function SampleCell(a: Analyzer, p: PlayerTrack): (c: Cell)
    requires a.gridSize != 0.0 && Counted(a, p) && RecordDefined(a, p)
    ensures InShape(a, c)
  {
    Cell(RowOf(a, p.position.value), ColOf(a, p.position.value), Slot(p.team.value))
  }

  // ---- Reference: the samples as a list ----

  /** The cells of the counted records among the first `n` of a frame, in
      iteration order. */
  function FrameSamples(a: Analyzer, f: Frame, n: nat): (cs: seq<Cell>)
    requires a.gridSize != 0.0 && n <= |f| && FrameDefined(a, f)
    ensures |cs| <= n
    ensures forall k :: 0 <= k < |cs| ==> InShape(a, cs[k])
  {
    if n == 0 then []
    else
      var p := f[n - 1].1;
      FrameSamples(a, f, n - 1) + if Counted(a, p) then [SampleCell(a, p)] else []
  }

  /** The cells of every counted record of every frame, in order. */
  function Samples(a: Analyzer, frames: seq<Frame>): (cs: seq<Cell>)
    requires a.gridSize != 0.0 && FramesDefined(a, frames)
    ensures forall k :: 0 <= k < |cs| ==> InShape(a, cs[k])
  {
    if |frames| == 0 then []
    else
      var last := frames[|frames| - 1];
      Samples(a, frames[..|frames| - 1]) + FrameSamples(a, last, |last|)
  }

  // ---- The counting grid ----

  /** `space_control`: `grid[row][col][slot]`. numpy stores floats; every
      value here is a whole count, so it is kept as a `nat`. */
  type Grid = seq<seq<seq<nat>>>

  predicate Shaped(a: Analyzer, g: Grid) {
    && |g| == a.gridRows
    && (forall i :: 0 <= i < |g| ==> |g[i]| == a.gridCols)
    && (forall i, j :: 0 <= i < |g| && 0 <= j < |g[i]| ==> |g[i][j]| == 2)
  }

  function Count(a: Analyzer, g: Grid, c: Cell): nat
    requires Shaped(a, g) && InShape(a, c)
  {
    g[c.row][c.col][c.slot]
  }

  /** `np.zeros((grid_rows, grid_cols, 2))`. */
  function Zeros(a: Analyzer): (g: Grid)
    requires Valid(a)
    ensures Shaped(a, g)
    ensures forall c :: InShape(a, c) ==> Count(a, g, c) == 0
  {
    seq(a.gridRows, i => seq(a.gridCols, j => [0, 0]))
  }

  /** `space_control[row, col, team - 1] += 1`: one counter goes up by one
      and no other changes. */
  function Increment(a: Analyzer, g: Grid, c: Cell): (r: Grid)
    requires Shaped(a, g) && InShape(a, c)
    ensures Shaped(a, r)
    ensures forall d :: InShape(a, d) ==> Count(a, r, d) == Count(a, g, d) + if d == c then 1 else 0
  {
    var row := g[c.row];
    var counters := row[c.col];
    g[c.row := row[c.col := counters[c.slot := counters[c.slot] + 1]]]
  }

  /** The inner loop (lines 29-38) over the first `n` records of a frame. */
  function VisitRecords(a: Analyzer, g: Grid, f: Frame, n: nat): (r: Grid)
    requires Valid(a) && Shaped(a, g) && n <= |f| && FrameDefined(a, f)
    ensures Shaped(a, r)
    ensures forall c :: InShape(a, c) ==> Count(a, r, c) == Count(a, g, c) + multiset(FrameSamples(a, f, n))[c]
  {
    if n == 0 then g
    else
      var g' := VisitRecords(a, g, f, n - 1);
      var p := f[n - 1].1;
      if p.team.Some? && p.position.Some? then
        var row := RowOf(a, p.position.value);
        var col := ColOf(a, p.position.value);
        if 0 <= row < a.gridRows && 0 <= col < a.gridCols then
          Increment(a, g', Cell(row, col, Slot(p.team.value)))
        else g'
      else g'
  }

  /** The outer loop (line 28) over the frames, in order. */
  function VisitFrames(a: Analyzer, g: Grid, frames: seq<Frame>): (r: Grid)
    requires Valid(a) && Shaped(a, g) && FramesDefined(a, frames)
    ensures Shaped(a, r)
    ensures forall c :: InShape(a, c) ==> Count(a, r, c) == Count(a, g, c) + multiset(Samples(a, frames))[c]
  {
    if |frames| == 0 then g
    else
      var last := frames[|frames| - 1];
      var g' := VisitFrames(a, g, frames[..|frames| - 1]);
      VisitRecords(a, g', last, |last|)
  }

  /** `analyze_space_control(player_tracks)`: every counter holds the number
      of counted samples that land in it. */
  function AnalyzeSpaceControl(a: Analyzer, frames: seq<Frame>): (g: Grid)
    requires Valid(a) && FramesDefined(a, frames)
    ensures Shaped(a, g)
    ensures forall c :: InShape(a, c) ==> Count(a, g, c) == multiset(Samples(a, frames))[c]
  {
    VisitFrames(a, Zeros(a), frames)
  }

  // ---- Properties of the analysis ----

  /** Frames concatenate their samples. */
  lemma {:induction false} SamplesOfConcatenation(a: Analyzer, x: seq<Frame>, y: seq<Frame>)
    requires a.gridSize != 0.0 && FramesDefined(a, x) && FramesDefined(a, y)
    ensures FramesDefined(a, x + y)
    ensures Samples(a, x + y) == Samples(a, x) + Samples(a, y)
    decreases |y|
  {
    assert forall t :: 0 <= t < |x + y| ==> (x + y)[t] == if t < |x| then x[t] else y[t - |x|];
    if |y| > 0 {
      var init := y[..|y| - 1];
      SamplesOfConcatenation(a, x, init);
      assert (x + y)[..|x + y| - 1] == x + init;
    } else {
      assert x + y == x;
    }
  }

  /** Analysing two frame sequences one after the other adds their counts
      cell by cell. */
  lemma ConcatenationAddsCounts(a: Analyzer, x: seq<Frame>, y: seq<Frame>, c: Cell)
    requires Valid(a) && FramesDefined(a, x) && FramesDefined(a, y) && InShape(a, c)
    ensures FramesDefined(a, x + y)
    ensures Count(a, AnalyzeSpaceControl(a, x + y), c) == Count(a, AnalyzeSpaceControl(a, x), c) + Count(a, AnalyzeSpaceControl(a, y), c)
  {
    SamplesOfConcatenation(a, x, y);
  }

  /** A frame none of whose records is counted (no team, no position, or a
      cell outside the grid) leaves every counter as it was. */
  lemma UncountedFrameAddsNothing(a: Analyzer, frames: seq<Frame>, f: Frame, c: Cell)
    requires Valid(a) && FramesDefined(a, frames) && InShape(a, c)
    requires forall i :: 0 <= i < |f| ==> !Counted(a, f[i].1)
    ensures FramesDefined(a, frames + [f])
    ensures Count(a, AnalyzeSpaceControl(a, frames + [f]), c) == Count(a, AnalyzeSpaceControl(a, frames), c)
  {
    assert FramesDefined(a, [f]);
    SamplesOfConcatenation(a, frames, [f]);
    NothingCounted(a, f, |f|);
    assert [f][..0] == [];
  }

  lemma {:induction false} NothingCounted(a: Analyzer, f: Frame, n: nat)
    requires a.gridSize != 0.0 && n <= |f| && FrameDefined(a, f)
    requires forall i :: 0 <= i < |f| ==> !Counted(a, f[i].1)
    ensures FrameSamples(a, f, n) == []
  {
    if n > 0 {
      NothingCounted(a, f, n - 1);
    }
  }

  // ---- The total count ----

  /** The sum of one cell's two counters. */
  function CellTotal(counters: seq<nat>): nat {
    if |counters| == 0 then 0 else CellTotal(counters[..|counters| - 1]) + counters[|counters| - 1]
  }

  function RowTotal(row: seq<seq<nat>>): nat {
    if |row| == 0 then 0 else RowTotal(row[..|row| - 1]) + CellTotal(row[|row| - 1])
  }

  /** `space_control.sum()`. */
  function GridTotal(g: Grid): nat {
    if |g| == 0 then 0 else GridTotal(g[..|g| - 1]) + RowTotal(g[|g| - 1])
  }

  lemma {:induction false} CellTotalReplace(s: seq<nat>, i: nat, v: nat)
    requires i < |s|
    ensures CellTotal(s[i := v]) + s[i] == CellTotal(s) + v
  {
    var last := |s| - 1;
    if i < last {
      CellTotalReplace(s[..last], i, v);
      assert s[i := v][..last] == s[..last][i := v];
    } else {
      assert s[i := v][..last] == s[..last];
    }
  }

  lemma {:induction false} RowTotalReplace(s: seq<seq<nat>>, i: nat, v: seq<nat>)
    requires i < |s|
    ensures RowTotal(s[i := v]) + CellTotal(s[i]) == RowTotal(s) + CellTotal(v)
  {
    var last := |s| - 1;
    if i < last {
      RowTotalReplace(s[..last], i, v);
      assert s[i := v][..last] == s[..last][i := v];
    } else {
      assert s[i := v][..last] == s[..last];
    }
  }

  lemma {:induction false} GridTotalReplace(s: Grid, i: nat, v: seq<seq<nat>>)
    requires i < |s|
    ensures GridTotal(s[i := v]) + RowTotal(s[i]) == GridTotal(s) + RowTotal(v)
  {
    var last := |s| - 1;
    if i < last {
      GridTotalReplace(s[..last], i, v);
      assert s[i := v][..last] == s[..last][i := v];
    } else {
      assert s[i := v][..last] == s[..last];
    }
  }

  lemma {:induction false} ZeroRowsTotal(g: Grid)
    requires forall i, j, k :: 0 <= i < |g| && 0 <= j < |g[i]| && 0 <= k < |g[i][j]| ==> g[i][j][k] == 0
    ensures GridTotal(g) == 0
  {
    if |g| > 0 {
      ZeroRowsTotal(g[..|g| - 1]);
      ZeroCellsTotal(g[|g| - 1]);
    }
  }

  lemma {:induction false} ZeroCellsTotal(row: seq<seq<nat>>)
    requires forall j, k :: 0 <= j < |row| && 0 <= k < |row[j]| ==> row[j][k] == 0
    ensures RowTotal(row) == 0
  {
    if |row| > 0 {
      ZeroCellsTotal(row[..|row| - 1]);
      ZeroCountersTotal(row[|row| - 1]);
    }
  }

  lemma {:induction false} ZeroCountersTotal(counters: seq<nat>)
    requires forall k :: 0 <= k < |counters| ==> counters[k] == 0
    ensures CellTotal(counters) == 0
  {
    if |counters| > 0 {
      ZeroCountersTotal(counters[..|counters| - 1]);
    }
  }

  lemma ZerosTotal(a: Analyzer)
    requires Valid(a)
    ensures GridTotal(Zeros(a)) == 0
  {
    ZeroRowsTotal(Zeros(a));
  }

  lemma IncrementTotal(a: Analyzer, g: Grid, c: Cell)
    requires Shaped(a, g) && InShape(a, c)
    ensures GridTotal(Increment(a, g, c)) == GridTotal(g) + 1
  {
    var row := g[c.row];
    var counters := row[c.col];
    var counters' := counters[c.slot := counters[c.slot] + 1];
    var row' := row[c.col := counters'];
    CellTotalReplace(counters, c.slot, counters[c.slot] + 1);
    RowTotalReplace(row, c.col, counters');
    GridTotalReplace(g, c.row, row');
    assert Increment(a, g, c) == g[c.row := row'];
  }

  lemma {:induction false} VisitRecordsTotal(a: Analyzer, g: Grid, f: Frame, n: nat)
    requires Valid(a) && Shaped(a, g) && n <= |f| && FrameDefined(a, f)
    ensures GridTotal(VisitRecords(a, g, f, n)) == GridTotal(g) + |FrameSamples(a, f, n)|
  {
    if n == 0 {
      assert VisitRecords(a, g, f, n) == g;
    } else {
      VisitRecordsTotal(a, g, f, n - 1);
      VisitRecordTotalStep(a, g, f, n);
    }
  }

  /** One record raises the total by exactly what it adds to the samples. */
  lemma VisitRecordTotalStep(a: Analyzer, g: Grid, f: Frame, n: nat)
    requires Valid(a) && Shaped(a, g) && 0 < n <= |f| && FrameDefined(a, f)
    ensures GridTotal(VisitRecords(a, g, f, n)) + |FrameSamples(a, f, n - 1)|
            == GridTotal(VisitRecords(a, g, f, n - 1)) + |FrameSamples(a, f, n)|
  {
    VisitRecordStep(a, g, f, n);
    if Counted(a, f[n - 1].1) {
      IncrementTotal(a, VisitRecords(a, g, f, n - 1), SampleCell(a, f[n - 1].1));
    }
  }

  /** One step of the inner loop, in terms of `Counted`. */
  lemma VisitRecordStep(a: Analyzer, g: Grid, f: Frame, n: nat)
    requires Valid(a) && Shaped(a, g) && 0 < n <= |f| && FrameDefined(a, f)
    ensures var g' := VisitRecords(a, g, f, n - 1);
      VisitRecords(a, g, f, n) == if Counted(a, f[n - 1].1) then Increment(a, g', SampleCell(a, f[n - 1].1)) else g'
    ensures |FrameSamples(a, f, n)| == |FrameSamples(a, f, n - 1)| + if Counted(a, f[n - 1].1) then 1 else 0
  {
  }

  lemma {:induction false} VisitFramesTotal(a: Analyzer, g: Grid, frames: seq<Frame>)
    requires Valid(a) && Shaped(a, g) && FramesDefined(a, frames)
    ensures GridTotal(VisitFrames(a, g, frames)) == GridTotal(g) + |Samples(a, frames)|
  {
    if |frames| > 0 {
      var last := frames[|frames| - 1];
      var init := frames[..|frames| - 1];
      VisitFramesTotal(a, g, init);
      VisitRecordsTotal(a, VisitFrames(a, g, init), last, |last|);
    }
  }

  /** Every counted sample adds exactly one: the counters sum to the number
      of samples with a team, a position and a cell inside the grid. */
  lemma TotalIsSampleCount(a: Analyzer, frames: seq<Frame>)
    requires Valid(a) && FramesDefined(a, frames)
    ensures GridTotal(AnalyzeSpaceControl(a, frames)) == |Samples(a, frames)|
  {
    ZerosTotal(a);
    VisitFramesTotal(a, Zeros(a), frames);
  }
}
