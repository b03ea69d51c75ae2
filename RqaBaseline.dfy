/** The baseline quantification analysis: one pass over the full `n x n`
    recurrence matrix, column by column, that counts the recurrence points of
    every column and records the diagonal, vertical and white vertical lines
    in their frequency distributions.

    Whether vectors `x` and `y` recur (the neighbourhood applied to their
    distance) is the parameter `recurrent`. */
module RqaBaseline {
  import opened Runs
  import opened RecurrenceAnalysis

  // ---------------------------------------------------------------------------
  // The lines of the recurrence matrix.

  /** Column `x`: cell `y` is true when `(x, y)` recurs. */
  function Column(recurrent: (int, int) -> bool, n: nat, x: int): seq<bool>
  {
    seq(n, y => recurrent(x, y))
  }

  /** Column `x` of the white cells: cell `y` is true when `(x, y)` does not
      recur. */
  function WhiteColumn(recurrent: (int, int) -> bool, n: nat, x: int): seq<bool>
  {
    seq(n, y => !recurrent(x, y))
  }
  /** The columns of the recurrence matrix. */
  function Columns(recurrent: (int, int) -> bool, n: nat): seq<seq<bool>>
  {
    seq(n, x => Column(recurrent, n, x))
  }

  /** The columns of the white cells. */
  function WhiteColumns(recurrent: (int, int) -> bool, n: nat): seq<seq<bool>>
  {
    seq(n, x => WhiteColumn(recurrent, n, x))
  }

  /** The number of diagonals of an `n x n` matrix. */
  function NumberOfDiagonals(n: nat): nat
  {
    if n == 0 then 0 else 2 * n - 1
  }

  /** Diagonal `d` holds the cells `(x, y)` with `y - x == d - (n - 1)`; it
      starts at column `DiagonalStart(n, d)`. */
  function DiagonalStart(n: nat, d: nat): nat
  {
    if d < n - 1 then n - 1 - d else 0
  }

  /** The number of cells of diagonal `d`: `n - |y - x|`. */
  function DiagonalLength(n: nat, d: nat): nat
  {
    if d < n - 1 then d + 1 else if d <= 2 * n - 1 then 2 * n - 1 - d else 0
  }

  function Abs(v: int): nat
  {
    if v < 0 then -v else v
  }

  /** Diagonal `d` of the recurrence matrix, from its lowest column: a cell is
      true when it recurs and lies outside the Theiler window, that is at
      least `theilerCorrector` away from the main diagonal. */
  function Diagonal(recurrent: (int, int) -> bool, n: nat, theilerCorrector: nat, d: nat): seq<bool>
  {
    var lo, offset := DiagonalStart(n, d), d - (n - 1);
    seq(DiagonalLength(n, d), i => recurrent(lo + i, lo + i + offset) && Abs(offset) >= theilerCorrector)
  }

  /** The diagonals of the recurrence matrix, the Theiler window cleared. */
  function Diagonals(recurrent: (int, int) -> bool, n: nat, theilerCorrector: nat): seq<seq<bool>>
  {
    seq(NumberOfDiagonals(n), (d: nat) => Diagonal(recurrent, n, theilerCorrector, d))
  }

  /** The lengths of all diagonal lines outside the Theiler window. */
  function DiagonalLines(recurrent: (int, int) -> bool, n: nat, theilerCorrector: nat): seq<nat>
  {
    AllMaximalRuns(Diagonals(recurrent, n, theilerCorrector))
  }

  /** The lengths of all vertical lines. */
  function VerticalLines(recurrent: (int, int) -> bool, n: nat): seq<nat>
  {
    AllMaximalRuns(Columns(recurrent, n))
  }

  /** The lengths of all white vertical lines. */
  function WhiteVerticalLines(recurrent: (int, int) -> bool, n: nat): seq<nat>
  {
    AllMaximalRuns(WhiteColumns(recurrent, n))
  }

  /** Per column, the number of recurrence points. */
  function RecurrencePoints(recurrent: (int, int) -> bool, n: nat): seq<nat>
  {
    seq(n, x => CountTrue(Column(recurrent, n, x)))
  }

  /** The vertical lines, weighted by their lengths, cover exactly the
      recurrence points. */
  lemma VerticalLinesCoverRecurrencePoints(recurrent: (int, int) -> bool, n: nat)
    ensures WeightedSum(Histogram(multiset(VerticalLines(recurrent, n)), n)) == Sum(RecurrencePoints(recurrent, n))
  {
    var columns := Columns(recurrent, n);
    AllMaximalRunsConserve(columns, n);
    CountAllIsSum(columns);
    assert seq(|columns|, i requires 0 <= i < |columns| => CountTrue(columns[i])) == RecurrencePoints(recurrent, n);
  }

  /** The white vertical lines, weighted by their lengths, cover exactly the
      `n * n` cells that are not recurrence points. */
  lemma WhiteVerticalLinesCoverTheRest(recurrent: (int, int) -> bool, n: nat)
    ensures WeightedSum(Histogram(multiset(WhiteVerticalLines(recurrent, n)), n)) == n * n - Sum(RecurrencePoints(recurrent, n))
  {
    var columns, whiteColumns := Columns(recurrent, n), WhiteColumns(recurrent, n);
    AllMaximalRunsConserve(whiteColumns, n);
    CountAllComplement(columns, whiteColumns, n);
    VerticalLinesCoverRecurrencePoints(recurrent, n);
    AllMaximalRunsConserve(columns, n);
  }

  /** The diagonal lines, weighted by their lengths, cover exactly the
      recurrence points outside the Theiler window. */
  lemma DiagonalLinesCoverDiagonalPoints(recurrent: (int, int) -> bool, n: nat, theilerCorrector: nat)
    ensures WeightedSum(Histogram(multiset(DiagonalLines(recurrent, n, theilerCorrector)), n))
         == CountAll(Diagonals(recurrent, n, theilerCorrector))
  {
    AllMaximalRunsConserve(Diagonals(recurrent, n, theilerCorrector), n);
  }

  /** Bucket `len - 1` of each distribution counts the maximal lines of
      exactly `len` cells: on the diagonals outside the Theiler window, in the
      columns, and in the white columns. */
  lemma BucketsCountLines(recurrent: (int, int) -> bool, n: nat, theilerCorrector: nat, len: nat)
    requires 1 <= len <= n
    ensures Histogram(multiset(DiagonalLines(recurrent, n, theilerCorrector)), n)[len - 1]
         == CountAllMaximalRuns(Diagonals(recurrent, n, theilerCorrector), len)
    ensures Histogram(multiset(VerticalLines(recurrent, n)), n)[len - 1] == CountAllMaximalRuns(Columns(recurrent, n), len)
    ensures Histogram(multiset(WhiteVerticalLines(recurrent, n)), n)[len - 1]
         == CountAllMaximalRuns(WhiteColumns(recurrent, n), len)
  {
    AllMaximalRunsCount(Diagonals(recurrent, n, theilerCorrector), len);
    AllMaximalRunsCount(Columns(recurrent, n), len);
    AllMaximalRunsCount(WhiteColumns(recurrent, n), len);
  }

  // ---------------------------------------------------------------------------
  // The progress of the sweep: columns `0 .. x - 1` done, and rows
  // `0 .. y - 1` of column `x`.

  /** How many cells of each column the sweep has visited. */
  function ColumnProgress(n: nat, x: nat, y: nat): seq<nat>
  {
    seq(n, (i: nat) => if i < x then n else if i == x then y else 0)
  }

  /** How many cells of diagonal `d` the sweep has visited: those in columns
      before `x`, and the one in column `x` if its row is before `y`. */
  function DiagonalDone(n: nat, d: nat, x: nat, y: nat): nat
  {
    var lo, len := DiagonalStart(n, d), DiagonalLength(n, d);
    (if x <= lo then 0 else if x - lo < len then x - lo else len)
    + (if lo <= x < lo + len && x + (d - (n - 1)) < y then 1 else 0)
  }

  /** How many cells of each diagonal the sweep has visited. */
  function DiagonalProgress(n: nat, x: nat, y: nat): seq<nat>
  {
    seq(NumberOfDiagonals(n), (d: nat) => DiagonalDone(n, d, x, y))
  }

  /** The cells of each line of a family swept so far. */
  function Swept(lines: seq<seq<bool>>, progress: seq<nat>): seq<seq<bool>>
    requires |progress| == |lines|
  {
    seq(|lines|, (i: nat) requires i < |lines| => Visited(lines[i], progress[i]))
  }

  /** One more cell of line `i0`. */
  lemma SweptAdvance(lines: seq<seq<bool>>, progress: seq<nat>, i0: nat)
    requires |progress| == |lines| && i0 < |lines| && progress[i0] < |lines[i0]|
    ensures var parts := Swept(lines, progress);
      Swept(lines, progress[i0 := progress[i0] + 1]) == parts[i0 := parts[i0] + [lines[i0][progress[i0]]]]
  {
    var line, p := lines[i0], progress[i0];
    assert Visited(line, p + 1) == Visited(line, p) + [line[p]];
  }

  /** With no cell visited, nothing of any line is swept. */
  lemma SweptNothing(lines: seq<seq<bool>>, progress: seq<nat>)
    requires |progress| == |lines| && forall i | 0 <= i < |lines| :: progress[i] == 0
    ensures forall i | 0 <= i < |lines| :: Swept(lines, progress)[i] == []
  {
  }

  /** With every cell visited, every line is swept in full. */
  lemma SweptInFull(lines: seq<seq<bool>>, progress: seq<nat>)
    requires |progress| == |lines| && forall i | 0 <= i < |lines| :: progress[i] >= |lines[i]|
    ensures Swept(lines, progress) == lines
  {
    forall i | 0 <= i < |lines| ensures Swept(lines, progress)[i] == lines[i] {
    }
  }

  /** Visiting cell `(x, y)` advances diagonal `n - 1 + y - x` by that cell
      and no other diagonal. */
  lemma DiagonalAdvance(recurrent: (int, int) -> bool, n: nat, w: nat, x: nat, y: nat)
    requires x < n && y < n
    ensures var d0, p := n - 1 + y - x, DiagonalProgress(n, x, y);
      && d0 < |p| && p[d0] < DiagonalLength(n, d0)
      && DiagonalProgress(n, x, y + 1) == p[d0 := p[d0] + 1]
      && Diagonal(recurrent, n, w, d0)[p[d0]] == (recurrent(x, y) && Abs(y - x) >= w)
  {
    var d0, p := n - 1 + y - x, DiagonalProgress(n, x, y);
    forall d | 0 <= d < |p| ensures DiagonalProgress(n, x, y + 1)[d] == if d == d0 then p[d0] + 1 else p[d] {
    }
  }

  /** The last row of column `x` leaves the diagonals as the first row of
      column `x + 1` finds them. */
  lemma DiagonalNextColumn(n: nat, x: nat)
    requires x < n
    ensures DiagonalProgress(n, x, n) == DiagonalProgress(n, x + 1, 0)
  {
  }

  lemma DiagonalEnds(n: nat)
    ensures forall d | 0 <= d < NumberOfDiagonals(n) :: DiagonalProgress(n, 0, 0)[d] == 0
    ensures forall d | 0 <= d < NumberOfDiagonals(n) :: DiagonalProgress(n, n, 0)[d] == DiagonalLength(n, d)
  {
  }

  // ---------------------------------------------------------------------------
  // The state of the sweep, as the contents of the arrays.

  /** Carryovers and a frequency distribution of a family of lines, of which
      `parts` have been swept: each carryover is the run still open on its
      line, and bucket `len - 1` counts the runs of length `len` already
      ended. */
  ghost predicate SweepState(parts: seq<seq<bool>>, carry: seq<nat>, hist: seq<nat>)
  {
    && |carry| == |parts|
    && (forall i | 0 <= i < |parts| :: carry[i] == Scan(parts[i], 0).carry)
    && (forall len | 1 <= len <= |hist| :: hist[len - 1] == multiset(EndedRuns(parts))[len])
  }

  /** The frequency distribution after a cell that ends a run of `carry`
      cells, if it does. */
  function Record(hist: seq<nat>, carry: nat, inRun: bool): seq<nat>
  {
    if !inRun && 0 < carry <= |hist| then hist[carry - 1 := hist[carry - 1] + 1] else hist
  }

  /** One more cell `b` of line `i0` keeps the state of the family. */
  lemma SweepStateAdvance(parts: seq<seq<bool>>, carry: seq<nat>, hist: seq<nat>, i0: nat, b: bool)
    requires SweepState(parts, carry, hist)
    requires i0 < |parts| && |parts[i0]| <= |hist|
    ensures SweepState(parts[i0 := parts[i0] + [b]], carry[i0 := Step(carry[i0], b).carry], Record(hist, carry[i0], b))
  {
    ScanSnoc(parts[i0], b, 0);
    EndedRunsAdvance(parts, i0, b);
    RecordCounts(hist, multiset(EndedRuns(parts)), carry[i0], b);
  }

  /** Recording a cell in a distribution of the runs `m` gives the
      distribution of `m` plus the run the cell ends. */
  lemma RecordCounts(hist: seq<nat>, m: multiset<nat>, carry: nat, cell: bool)
    requires forall len | 1 <= len <= |hist| :: hist[len - 1] == m[len]
    requires carry <= |hist|
    ensures var hist' := Record(hist, carry, cell);
      forall len | 1 <= len <= |hist'| :: hist'[len - 1] == (m + multiset(Step(carry, cell).runs))[len]
  {
  }

  /** The per-column recurrence points after columns `0 .. x - 1` and rows
      `0 .. y - 1` of column `x`. */
  ghost predicate PointsState(recurrent: (int, int) -> bool, n: nat, x: nat, y: nat, points: seq<nat>)
  {
    && |points| == n
    && forall i | 0 <= i < n :: points[i] == CountTrue(Visited(Column(recurrent, n, i), ColumnProgress(n, x, y)[i]))
  }

  lemma PointsAdvance(recurrent: (int, int) -> bool, n: nat, x: nat, y: nat, points: seq<nat>)
    requires x < n && y < n
    requires PointsState(recurrent, n, x, y, points)
    ensures PointsState(recurrent, n, x, y + 1,
                        points[x := points[x] + if recurrent(x, y) then 1 else 0])
  {
    var col := Column(recurrent, n, x);
    assert Visited(col, y + 1) == Visited(col, y) + [col[y]];
    assert Visited(col, y + 1)[..y] == Visited(col, y);
  }

  /** A diagonal inside the Theiler window holds no line, and its carryover
      stays zero whatever has been swept of it. */
  lemma TheilerWindowIdle(recurrent: (int, int) -> bool, n: nat, w: nat, d: nat, p: nat)
    requires Abs(d - (n - 1)) < w
    ensures Scan(Visited(Diagonal(recurrent, n, w, d), p), 0).carry == 0
    ensures MaximalRuns(Diagonal(recurrent, n, w, d)) == []
  {
    var line := Diagonal(recurrent, n, w, d);
    NoCellNoRun(Visited(line, p));
    NoCellNoRun(line);
  }

  /** At the end of the sweep every line has been swept in full: the
      carryovers are those of the whole lines, and the flushed carryovers
      complete the distribution to all maximal runs. */
  lemma SweepStateComplete(lines: seq<seq<bool>>, carry: seq<nat>, hist: seq<nat>)
    requires SweepState(lines, carry, hist)
    ensures carry == Carries(lines)
    ensures forall len | 1 <= len <= |hist| ::
      hist[len - 1] + multiset(carry)[len] == multiset(AllMaximalRuns(lines))[len]
  {
    CarriesAre(lines, carry);
    forall len | 1 <= len <= |hist|
      ensures hist[len - 1] + multiset(carry)[len] == multiset(AllMaximalRuns(lines))[len]
    {
      FlushedRunsCount(lines, len);
    }
  }

  /** Before the sweep: nothing swept, carryovers and distribution zero. */
  lemma SweepStateStart(parts: seq<seq<bool>>, carry: seq<nat>, hist: seq<nat>)
    requires forall i | 0 <= i < |parts| :: parts[i] == []
    requires |carry| == |parts| && forall i | 0 <= i < |parts| :: carry[i] == 0
    requires forall k | 0 <= k < |hist| :: hist[k] == 0
    ensures SweepState(parts, carry, hist)
  {
    NothingEnded(parts);
  }

  // ---------------------------------------------------------------------------
  // The arrays of the sweep as values, and their contents at each position.

  /** The seven arrays `Baseline.Run` works on. */
  datatype SweepArrays = SweepArrays(
    recurrencePoints: seq<nat>,
    diagonalLengthCarryover: seq<nat>, diagonalFrequencyDistribution: seq<nat>,
    verticalLengthCarryover: seq<nat>, verticalFrequencyDistribution: seq<nat>,
    whiteVerticalLengthCarryover: seq<nat>, whiteVerticalFrequencyDistribution: seq<nat>)

  /** The state of the sweep before cell `(x, y)`: the recurrence points and
      the three families of lines. */
  ghost predicate SweepInvariant(recurrent: (int, int) -> bool, n: nat, w: nat, x: nat, y: nat, s: SweepArrays)
  {
    && |s.diagonalFrequencyDistribution| == n && |s.verticalFrequencyDistribution| == n
    && |s.whiteVerticalFrequencyDistribution| == n
    && PointsState(recurrent, n, x, y, s.recurrencePoints)
    && SweepState(Swept(Columns(recurrent, n), ColumnProgress(n, x, y)),
                  s.verticalLengthCarryover, s.verticalFrequencyDistribution)
    && SweepState(Swept(WhiteColumns(recurrent, n), ColumnProgress(n, x, y)),
                  s.whiteVerticalLengthCarryover, s.whiteVerticalFrequencyDistribution)
    && SweepState(Swept(Diagonals(recurrent, n, w), DiagonalProgress(n, x, y)),
                  s.diagonalLengthCarryover, s.diagonalFrequencyDistribution)
  }

  /** The lengths of the seven arrays. */
  function Sizes(s: SweepArrays): seq<nat>
  {
    [|s.recurrencePoints|, |s.diagonalLengthCarryover|, |s.diagonalFrequencyDistribution|,
     |s.verticalLengthCarryover|, |s.verticalFrequencyDistribution|,
     |s.whiteVerticalLengthCarryover|, |s.whiteVerticalFrequencyDistribution|]
  }

  /** `count` zeros. */
  function Zeros(count: nat): (z: seq<nat>)
    ensures |z| == count && forall i | 0 <= i < count :: z[i] == 0
  {
    seq(count, _ => 0)
  }

  /** The arrays as `Baseline.Reset` leaves them. */
  function Cleared(n: nat): (s: SweepArrays)
    ensures Sizes(s) == [n, NumberOfDiagonals(n), n, n, n, n, n]
  {
    SweepArrays(Zeros(n), Zeros(NumberOfDiagonals(n)), Zeros(n), Zeros(n), Zeros(n), Zeros(n), Zeros(n))
  }

  /** The arrays after cell `(x, y)`: each family takes one step of the
      run-length sweep, a recurrence point counts in its column, and a
      diagonal cell inside the Theiler window counts as no recurrence. */
  function Visit(s: SweepArrays, recurrent: (int, int) -> bool, n: nat, w: nat, x: nat, y: nat): (s': SweepArrays)
    requires x < |s.recurrencePoints| && x < |s.verticalLengthCarryover| && x < |s.whiteVerticalLengthCarryover|
    requires x <= n - 1 + y < x + |s.diagonalLengthCarryover|
    ensures Sizes(s') == Sizes(s)
  {
    var r, d0 := recurrent(x, y), n - 1 + y - x;
    var cell := r && Abs(y - x) >= w;
    var dc, vc, wc := s.diagonalLengthCarryover, s.verticalLengthCarryover, s.whiteVerticalLengthCarryover;
    SweepArrays(s.recurrencePoints[x := s.recurrencePoints[x] + if r then 1 else 0],
                dc[d0 := Step(dc[d0], cell).carry], Record(s.diagonalFrequencyDistribution, dc[d0], cell),
                vc[x := Step(vc[x], r).carry], Record(s.verticalFrequencyDistribution, vc[x], r),
                wc[x := Step(wc[x], !r).carry], Record(s.whiteVerticalFrequencyDistribution, wc[x], !r))
  }

  /** The arrays after the first `y` cells of column `x`, starting from `s`. */
  function SweepRows(s: SweepArrays, recurrent: (int, int) -> bool, n: nat, w: nat, x: nat, y: nat): (s': SweepArrays)
    requires Sizes(s) == [n, NumberOfDiagonals(n), n, n, n, n, n] && x < n && y <= n
    ensures Sizes(s') == Sizes(s)
  {
    if y == 0 then s else Visit(SweepRows(s, recurrent, n, w, x, y - 1), recurrent, n, w, x, y - 1)
  }

  /** The arrays after the first `x` columns, starting from cleared arrays. */
  function SweepColumns(recurrent: (int, int) -> bool, n: nat, w: nat, x: nat): (s: SweepArrays)
    requires x <= n
    ensures Sizes(s) == [n, NumberOfDiagonals(n), n, n, n, n, n]
  {
    if x == 0 then Cleared(n) else SweepRows(SweepColumns(recurrent, n, w, x - 1), recurrent, n, w, x - 1, n)
  }

  /** Before the first cell, the cleared arrays are in the state of the
      sweep. */
  lemma SweepStarts(recurrent: (int, int) -> bool, n: nat, w: nat)
    ensures SweepInvariant(recurrent, n, w, 0, 0, Cleared(n))
  {
    var s := Cleared(n);
    var columns, whiteColumns, diagonals := Columns(recurrent, n), WhiteColumns(recurrent, n), Diagonals(recurrent, n, w);
    DiagonalEnds(n);
    SweptNothing(columns, ColumnProgress(n, 0, 0));
    SweptNothing(whiteColumns, ColumnProgress(n, 0, 0));
    SweptNothing(diagonals, DiagonalProgress(n, 0, 0));
    SweepStateStart(Swept(columns, ColumnProgress(n, 0, 0)), s.verticalLengthCarryover, s.verticalFrequencyDistribution);
    SweepStateStart(Swept(whiteColumns, ColumnProgress(n, 0, 0)), s.whiteVerticalLengthCarryover,
                    s.whiteVerticalFrequencyDistribution);
    SweepStateStart(Swept(diagonals, DiagonalProgress(n, 0, 0)), s.diagonalLengthCarryover,
                    s.diagonalFrequencyDistribution);
    forall i | 0 <= i < n ensures Visited(Column(recurrent, n, i), 0) == [] {
    }
  }

  /** The last row of column `x` is the start of column `x + 1`. */
  lemma ColumnWraps(recurrent: (int, int) -> bool, n: nat, w: nat, x: nat, s: SweepArrays)
    requires x < n && SweepInvariant(recurrent, n, w, x, n, s)
    ensures SweepInvariant(recurrent, n, w, x + 1, 0, s)
  {
    DiagonalNextColumn(n, x);
    assert ColumnProgress(n, x, n) == ColumnProgress(n, x + 1, 0);
  }

  /** The rows of column `x` keep the state of the sweep. */
  lemma {:induction false} SweepRowsInvariant(recurrent: (int, int) -> bool, n: nat, w: nat, x: nat, y: nat, s: SweepArrays)
    requires x < n && y <= n && SweepInvariant(recurrent, n, w, x, 0, s)
    requires Sizes(s) == [n, NumberOfDiagonals(n), n, n, n, n, n]
    ensures SweepInvariant(recurrent, n, w, x, y, SweepRows(s, recurrent, n, w, x, y))
  {
    if y > 0 {
      SweepRowsInvariant(recurrent, n, w, x, y - 1, s);
      RowAdvance(recurrent, n, w, x, y, s, SweepRows(s, recurrent, n, w, x, y - 1));
    }
  }

  /** Row `y - 1` of column `x` keeps the state of the sweep. */
  lemma RowAdvance(recurrent: (int, int) -> bool, n: nat, w: nat, x: nat, y: nat, s: SweepArrays, t: SweepArrays)
    requires x < n && 0 < y <= n && Sizes(s) == [n, NumberOfDiagonals(n), n, n, n, n, n]
    requires t == SweepRows(s, recurrent, n, w, x, y - 1) && SweepInvariant(recurrent, n, w, x, y - 1, t)
    ensures SweepInvariant(recurrent, n, w, x, y, SweepRows(s, recurrent, n, w, x, y))
  {
    assert SweepRows(s, recurrent, n, w, x, y) == Visit(t, recurrent, n, w, x, y - 1);
    CellAdvance(recurrent, n, w, x, y - 1, t);
  }

  /** Sweeping all rows of column `x` brings the sweep to column `x + 1`. */
  lemma ColumnDone(recurrent: (int, int) -> bool, n: nat, w: nat, x: nat, s: SweepArrays)
    requires x < n && SweepInvariant(recurrent, n, w, x, 0, s)
    requires Sizes(s) == [n, NumberOfDiagonals(n), n, n, n, n, n]
    ensures SweepInvariant(recurrent, n, w, x + 1, 0, SweepRows(s, recurrent, n, w, x, n))
  {
    SweepRowsInvariant(recurrent, n, w, x, n, s);
    ColumnWraps(recurrent, n, w, x, SweepRows(s, recurrent, n, w, x, n));
  }

  /** The columns swept so far are in the state of the sweep. */
  lemma {:induction false} SweepColumnsInvariant(recurrent: (int, int) -> bool, n: nat, w: nat, x: nat)
    requires x <= n
    ensures SweepInvariant(recurrent, n, w, x, 0, SweepColumns(recurrent, n, w, x))
  {
    if x == 0 {
      SweepStarts(recurrent, n, w);
    } else {
      var s := SweepColumns(recurrent, n, w, x - 1);
      SweepColumnsInvariant(recurrent, n, w, x - 1);
      ColumnDone(recurrent, n, w, x - 1, s);
      assert SweepColumns(recurrent, n, w, x) == SweepRows(s, recurrent, n, w, x - 1, n);
    }
  }

  /** The open lines through cell `(x, y)` fit the distributions, and the
      diagonal through it is idle inside the Theiler window. */
  predicate CellFits(s: SweepArrays, n: nat, w: nat, x: nat, y: nat)
  {
    var d0 := n - 1 + y - x;
    && 0 <= d0 < |s.diagonalLengthCarryover| && x < |s.verticalLengthCarryover| && x < |s.whiteVerticalLengthCarryover|
    && s.diagonalLengthCarryover[d0] <= n && s.verticalLengthCarryover[x] <= n
    && s.whiteVerticalLengthCarryover[x] <= n
    && (Abs(y - x) < w ==> s.diagonalLengthCarryover[d0] == 0)
  }

  lemma VisitBounds(recurrent: (int, int) -> bool, n: nat, w: nat, x: nat, y: nat)
    requires x < n && y < n
    ensures CellFits(SweepRows(SweepColumns(recurrent, n, w, x), recurrent, n, w, x, y), n, w, x, y)
  {
    var s := SweepColumns(recurrent, n, w, x);
    SweepColumnsInvariant(recurrent, n, w, x);
    SweepRowsInvariant(recurrent, n, w, x, y, s);
    CellBounds(recurrent, n, w, x, y, SweepRows(s, recurrent, n, w, x, y));
  }

  lemma CellBounds(recurrent: (int, int) -> bool, n: nat, w: nat, x: nat, y: nat, s: SweepArrays)
    requires x < n && y < n
    requires SweepInvariant(recurrent, n, w, x, y, s)
    ensures var d0 := n - 1 + y - x;
      && |s.recurrencePoints| == n && |s.diagonalLengthCarryover| == NumberOfDiagonals(n)
      && |s.verticalLengthCarryover| == n && |s.whiteVerticalLengthCarryover| == n
      && s.diagonalLengthCarryover[d0] <= n && s.verticalLengthCarryover[x] <= n
      && s.whiteVerticalLengthCarryover[x] <= n
      && (Abs(y - x) < w ==> s.diagonalLengthCarryover[d0] == 0)
  {
    var d0, p := n - 1 + y - x, DiagonalProgress(n, x, y);
    DiagonalAdvance(recurrent, n, w, x, y);
    assert Swept(Diagonals(recurrent, n, w), p)[d0] == Visited(Diagonal(recurrent, n, w, d0), p[d0]);
    if Abs(y - x) < w {
      TheilerWindowIdle(recurrent, n, w, d0, p[d0]);
    }
  }

  /** Visiting cell `(x, y)` keeps the invariant. */
  lemma CellAdvance(recurrent: (int, int) -> bool, n: nat, w: nat, x: nat, y: nat, s: SweepArrays)
    requires x < n && y < n
    requires SweepInvariant(recurrent, n, w, x, y, s)
    ensures x <= n - 1 + y < x + |s.diagonalLengthCarryover|
    ensures SweepInvariant(recurrent, n, w, x, y + 1, Visit(s, recurrent, n, w, x, y))
  {
    DiagonalAdvance(recurrent, n, w, x, y);
    ColumnCellAdvance(recurrent, n, w, x, y, s);
    DiagonalLineAdvance(recurrent, n, w, x, y, s);
  }

  /** Visiting cell `(x, y)` keeps the state of column `x`: its recurrence
      points, its vertical line and its white vertical line. */
  lemma ColumnCellAdvance(recurrent: (int, int) -> bool, n: nat, w: nat, x: nat, y: nat, s: SweepArrays)
    requires x < n && y < n && |s.diagonalLengthCarryover| == NumberOfDiagonals(n)
    requires |s.verticalFrequencyDistribution| == n && |s.whiteVerticalFrequencyDistribution| == n
    requires PointsState(recurrent, n, x, y, s.recurrencePoints)
    requires SweepState(Swept(Columns(recurrent, n), ColumnProgress(n, x, y)),
                        s.verticalLengthCarryover, s.verticalFrequencyDistribution)
    requires SweepState(Swept(WhiteColumns(recurrent, n), ColumnProgress(n, x, y)),
                        s.whiteVerticalLengthCarryover, s.whiteVerticalFrequencyDistribution)
    ensures var s' := Visit(s, recurrent, n, w, x, y);
      && PointsState(recurrent, n, x, y + 1, s'.recurrencePoints)
      && SweepState(Swept(Columns(recurrent, n), ColumnProgress(n, x, y + 1)),
                    s'.verticalLengthCarryover, s'.verticalFrequencyDistribution)
      && SweepState(Swept(WhiteColumns(recurrent, n), ColumnProgress(n, x, y + 1)),
                    s'.whiteVerticalLengthCarryover, s'.whiteVerticalFrequencyDistribution)
  {
    PointsAdvance(recurrent, n, x, y, s.recurrencePoints);
    VerticalAdvance(Columns(recurrent, n), n, x, y, s.verticalLengthCarryover, s.verticalFrequencyDistribution,
                    recurrent(x, y));
    VerticalAdvance(WhiteColumns(recurrent, n), n, x, y, s.whiteVerticalLengthCarryover,
                    s.whiteVerticalFrequencyDistribution, !recurrent(x, y));
  }

  /** Cell `(x, y)` of a family of columns, with value `cell`. */
  lemma VerticalAdvance(columns: seq<seq<bool>>, n: nat, x: nat, y: nat, vc: seq<nat>, vfd: seq<nat>, cell: bool)
    requires |columns| == n && x < n && y < n && |vfd| == n && |columns[x]| == n && columns[x][y] == cell
    requires SweepState(Swept(columns, ColumnProgress(n, x, y)), vc, vfd)
    ensures SweepState(Swept(columns, ColumnProgress(n, x, y + 1)), vc[x := Step(vc[x], cell).carry], Record(vfd, vc[x], cell))
  {
    var p := ColumnProgress(n, x, y);
    assert ColumnProgress(n, x, y + 1) == p[x := p[x] + 1];
    SweptAdvance(columns, p, x);
    SweepStateAdvance(Swept(columns, p), vc, vfd, x, cell);
  }

  /** Cell `(x, y)` of the diagonals: it is part of a line only outside the
      Theiler window. */
  lemma DiagonalLineAdvance(recurrent: (int, int) -> bool, n: nat, w: nat, x: nat, y: nat, s: SweepArrays)
    requires x < n && y < n && |s.diagonalFrequencyDistribution| == n
    requires |s.recurrencePoints| == n && |s.verticalLengthCarryover| == n && |s.whiteVerticalLengthCarryover| == n
    requires SweepState(Swept(Diagonals(recurrent, n, w), DiagonalProgress(n, x, y)),
                        s.diagonalLengthCarryover, s.diagonalFrequencyDistribution)
    ensures |s.diagonalLengthCarryover| == NumberOfDiagonals(n)
    ensures var s' := Visit(s, recurrent, n, w, x, y);
      SweepState(Swept(Diagonals(recurrent, n, w), DiagonalProgress(n, x, y + 1)),
                 s'.diagonalLengthCarryover, s'.diagonalFrequencyDistribution)
  {
    var d0, p, diagonals := n - 1 + y - x, DiagonalProgress(n, x, y), Diagonals(recurrent, n, w);
    var dc, dfd := s.diagonalLengthCarryover, s.diagonalFrequencyDistribution;
    var cell := recurrent(x, y) && Abs(y - x) >= w;
    DiagonalAdvance(recurrent, n, w, x, y);
    assert diagonals[d0] == Diagonal(recurrent, n, w, d0);
    SweptAdvance(diagonals, p, d0);
    SweepStateAdvance(Swept(diagonals, p), dc, dfd, d0, cell);
    var s' := Visit(s, recurrent, n, w, x, y);
    assert s'.diagonalLengthCarryover == dc[d0 := Step(dc[d0], cell).carry];
    assert s'.diagonalFrequencyDistribution == Record(dfd, dc[d0], cell);
  }

  /** What flushing a family needs: every carryover is at most `n`, and the
      distribution plus the carryovers counts, per length, the lines of that
      length. */
  ghost predicate Flushable(carry: seq<nat>, hist: seq<nat>, lines: seq<nat>, n: nat)
  {
    && |hist| == n
    && (forall i | 0 <= i < |carry| :: carry[i] <= n)
    && (forall len | 1 <= len <= n :: hist[len - 1] + multiset(carry)[len] == multiset(lines)[len])
  }

  /** After the last column the recurrence points are complete and the
      carryovers are ready to be flushed. */
  lemma SweepEnds(recurrent: (int, int) -> bool, n: nat, w: nat)
    ensures var s := SweepColumns(recurrent, n, w, n);
      && s.recurrencePoints == RecurrencePoints(recurrent, n)
      && Flushable(s.diagonalLengthCarryover, s.diagonalFrequencyDistribution, DiagonalLines(recurrent, n, w), n)
      && Flushable(s.verticalLengthCarryover, s.verticalFrequencyDistribution, VerticalLines(recurrent, n), n)
      && Flushable(s.whiteVerticalLengthCarryover, s.whiteVerticalFrequencyDistribution,
                   WhiteVerticalLines(recurrent, n), n)
  {
    var s := SweepColumns(recurrent, n, w, n);
    SweepColumnsInvariant(recurrent, n, w, n);
    PointsEnd(recurrent, n, s.recurrencePoints);
    FamilyEnd(Columns(recurrent, n), ColumnProgress(n, n, 0), n,
              s.verticalLengthCarryover, s.verticalFrequencyDistribution);
    FamilyEnd(WhiteColumns(recurrent, n), ColumnProgress(n, n, 0), n,
              s.whiteVerticalLengthCarryover, s.whiteVerticalFrequencyDistribution);
    DiagonalsEnd(recurrent, n, w, s.diagonalLengthCarryover, s.diagonalFrequencyDistribution);
  }

  /** After the last column every recurrence point has been counted. */
  lemma PointsEnd(recurrent: (int, int) -> bool, n: nat, points: seq<nat>)
    requires PointsState(recurrent, n, n, 0, points)
    ensures points == RecurrencePoints(recurrent, n)
  {
    forall i | 0 <= i < n ensures Visited(Column(recurrent, n, i), n) == Column(recurrent, n, i) {
    }
  }

  /** After the last column every diagonal has been swept in full. */
  lemma DiagonalsEnd(recurrent: (int, int) -> bool, n: nat, w: nat, dc: seq<nat>, dfd: seq<nat>)
    requires SweepState(Swept(Diagonals(recurrent, n, w), DiagonalProgress(n, n, 0)), dc, dfd)
    requires |dfd| == n
    ensures Flushable(dc, dfd, DiagonalLines(recurrent, n, w), n)
  {
    var diagonals := Diagonals(recurrent, n, w);
    DiagonalEnds(n);
    forall d | 0 <= d < |diagonals| ensures |diagonals[d]| <= n && |diagonals[d]| <= DiagonalProgress(n, n, 0)[d] {
    }
    FamilyEnd(diagonals, DiagonalProgress(n, n, 0), n, dc, dfd);
  }

  /** A family swept in full, its lines at most `n` long. */
  lemma FamilyEnd(lines: seq<seq<bool>>, progress: seq<nat>, n: nat, carry: seq<nat>, hist: seq<nat>)
    requires |progress| == |lines| && SweepState(Swept(lines, progress), carry, hist) && |hist| == n
    requires forall i | 0 <= i < |lines| :: |lines[i]| <= n && |lines[i]| <= progress[i]
    ensures Flushable(carry, hist, AllMaximalRuns(lines), n)
  {
    SweptInFull(lines, progress);
    SweepStateComplete(lines, carry, hist);
  }

  /** Flushing the carryovers completes the distribution to the histogram of
      all lines. */
  lemma FlushedHistogram(hist: seq<nat>, carry: seq<nat>, flushed: seq<nat>, lines: seq<nat>)
    requires Flushable(carry, hist, lines, |hist|) && |flushed| == |hist|
    requires forall len | 1 <= len <= |hist| :: flushed[len - 1] == hist[len - 1] + multiset(carry)[len]
    ensures flushed == Histogram(multiset(lines), |hist|)
  {
    forall i | 0 <= i < |hist| ensures flushed[i] == multiset(lines)[i + 1] {
      assert flushed[(i + 1) - 1] == hist[(i + 1) - 1] + multiset(carry)[i + 1];
    }
  }

  /** One more cell of the line whose carryover is `carry[i]`. */
  method ExtendLine(carry: array<nat>, i: nat)
    requires i < carry.Length
    modifies carry
    ensures carry[..] == old(carry[..])[i := Step(old(carry[i]), true).carry]
  {
    carry[i] := carry[i] + 1;
  }

  /** Ends the line whose carryover is `carry[i]`: a line of length `len > 0`
      is counted in bucket `len - 1` of `distribution`. */
  method EndLine(carry: array<nat>, distribution: array<nat>, i: nat)
    requires i < carry.Length && carry != distribution && carry[i] <= distribution.Length
    modifies carry, distribution
    ensures carry[..] == old(carry[..])[i := Step(old(carry[i]), false).carry]
    ensures distribution[..] == Record(old(distribution[..]), old(carry[i]), false)
  {
    if carry[i] > 0 {
      distribution[carry[i] - 1] := distribution[carry[i] - 1] + 1;
    }
    carry[i] := 0;
  }

  class Baseline {
    /** The number of vectors. */
    const n: nat
    const theilerCorrector: nat
    /** Whether the vectors `x` and `y` recur. */
    const recurrent: (int, int) -> bool
    const rqa: Rqa
    const carryover: Carryover

    /** The arrays the sweep works on are sized, zeroed and distinct. The
        diagonal length carryover always has one entry per diagonal, whether
        the matrix is symmetric or not. */
    ghost predicate Ready()
      reads this, rqa, carryover, rqa.recurrencePoints, rqa.diagonalFrequencyDistribution,
            rqa.verticalFrequencyDistribution, rqa.whiteVerticalFrequencyDistribution,
            carryover.diagonalLengthCarryover, carryover.verticalLengthCarryover,
            carryover.whiteVerticalLengthCarryover
    {
      var dc, vc, wc := carryover.diagonalLengthCarryover, carryover.verticalLengthCarryover,
                        carryover.whiteVerticalLengthCarryover;
      && Sized() && rqa.Cleared()
      && (forall d | 0 <= d < dc.Length :: dc[d] == 0)
      && (forall i | 0 <= i < n :: vc[i] == 0 && wc[i] == 0)
    }

    /** The sizes of the arrays the sweep works on, and that they are seven
        distinct arrays. */
    ghost predicate Sized()
      reads this, rqa, carryover
    {
      var dc, vc, wc := carryover.diagonalLengthCarryover, carryover.verticalLengthCarryover,
                        carryover.whiteVerticalLengthCarryover;
      var rp, dfd, vfd, wfd := rqa.recurrencePoints, rqa.diagonalFrequencyDistribution,
                               rqa.verticalFrequencyDistribution, rqa.whiteVerticalFrequencyDistribution;
      && rqa.n == n && rqa.theilerCorrector == theilerCorrector
      && rp.Length == n && dfd.Length == n && vfd.Length == n && wfd.Length == n
      && dc.Length == NumberOfDiagonals(n) && vc.Length == n && wc.Length == n
      && rp != dfd && rp != vfd && rp != wfd && dfd != vfd && dfd != wfd && vfd != wfd
      && dc != vc && dc != wc && vc != wc
      && dc != rp && dc != dfd && dc != vfd && dc != wfd
      && vc != rp && vc != dfd && vc != vfd && vc != wfd
      && wc != rp && wc != dfd && wc != vfd && wc != wfd
    }

    constructor (n: nat, isMatrixSymmetric: bool, theilerCorrector: nat, recurrent: (int, int) -> bool)
      requires n >= 1
      ensures this.n == n && this.theilerCorrector == theilerCorrector && this.recurrent == recurrent
      ensures rqa.isMatrixSymmetric == isMatrixSymmetric && carryover.n == n
      ensures Ready() && fresh(rqa) && fresh(carryover)
    {
      this.n := n;
      this.theilerCorrector := theilerCorrector;
      this.recurrent := recurrent;
      rqa := new Rqa(n, isMatrixSymmetric, theilerCorrector);
      carryover := new Carryover(n, isMatrixSymmetric);
      new;
      carryover.diagonalLengthCarryover := new nat[2 * n - 1](_ => 0);
    }

    /** Clears the global arrays and the carryovers; the diagonal length
        carryover gets one entry per diagonal even for a symmetric matrix. */
    method Reset()
      requires n >= 1 && rqa.n == n && rqa.theilerCorrector == theilerCorrector && carryover.n == n
      modifies rqa, carryover
      ensures Ready()
      ensures fresh(rqa.recurrencePoints) && fresh(rqa.diagonalFrequencyDistribution)
      ensures fresh(rqa.verticalFrequencyDistribution) && fresh(rqa.whiteVerticalFrequencyDistribution)
      ensures fresh(carryover.diagonalLengthCarryover) && fresh(carryover.verticalLengthCarryover)
      ensures fresh(carryover.whiteVerticalLengthCarryover)
    {
      rqa.Reset();
      carryover.Reset();
      carryover.diagonalLengthCarryover := new nat[2 * n - 1](_ => 0);
    }


    /** The arrays, as values. */
    ghost function Snapshot(): SweepArrays
      reads this, rqa, carryover, rqa.recurrencePoints, rqa.diagonalFrequencyDistribution,
            rqa.verticalFrequencyDistribution, rqa.whiteVerticalFrequencyDistribution,
            carryover.diagonalLengthCarryover, carryover.verticalLengthCarryover,
            carryover.whiteVerticalLengthCarryover
    {
      SweepArrays(rqa.recurrencePoints[..],
                  carryover.diagonalLengthCarryover[..], rqa.diagonalFrequencyDistribution[..],
                  carryover.verticalLengthCarryover[..], rqa.verticalFrequencyDistribution[..],
                  carryover.whiteVerticalLengthCarryover[..], rqa.whiteVerticalFrequencyDistribution[..])
    }

    /** Sweeps the recurrence matrix column by column, row by row, keeping a
        carryover per column and per diagonal, and flushes the carryovers at
        the end: the distributions hold, per length, the number of lines of
        that length. */
    method Run()
      requires n >= 1 && rqa.n == n && rqa.theilerCorrector == theilerCorrector && carryover.n == n
      modifies rqa, carryover
      ensures Sized()
      ensures rqa.recurrencePoints[..] == RecurrencePoints(recurrent, n)
      ensures rqa.diagonalFrequencyDistribution[..] == Histogram(multiset(DiagonalLines(recurrent, n, theilerCorrector)), n)
      ensures rqa.verticalFrequencyDistribution[..] == Histogram(multiset(VerticalLines(recurrent, n)), n)
      ensures rqa.whiteVerticalFrequencyDistribution[..] == Histogram(multiset(WhiteVerticalLines(recurrent, n)), n)
    {
      Reset();
      Sweep();
      SweepEnds(recurrent, n, theilerCorrector);
      FlushCarryovers();
    }

    /** The two loops over the cells, from the cleared arrays. */
    method Sweep()
      requires Ready()
      modifies rqa.recurrencePoints, rqa.diagonalFrequencyDistribution, rqa.verticalFrequencyDistribution,
               rqa.whiteVerticalFrequencyDistribution, carryover.diagonalLengthCarryover,
               carryover.verticalLengthCarryover, carryover.whiteVerticalLengthCarryover
      ensures Sized() && Snapshot() == SweepColumns(recurrent, n, theilerCorrector, n)
    {
      assert Snapshot() == Cleared(n);
      for x := 0 to n
        invariant Sized() && Snapshot() == SweepColumns(recurrent, n, theilerCorrector, x)
      {
        SweepColumn(x);
      }
    }

    /** The cells of column `x`, row by row. */
    method SweepColumn(x: nat)
      requires x < n && Sized() && Snapshot() == SweepColumns(recurrent, n, theilerCorrector, x)
      modifies rqa.recurrencePoints, rqa.diagonalFrequencyDistribution, rqa.verticalFrequencyDistribution,
               rqa.whiteVerticalFrequencyDistribution, carryover.diagonalLengthCarryover,
               carryover.verticalLengthCarryover, carryover.whiteVerticalLengthCarryover
      ensures Snapshot() == SweepColumns(recurrent, n, theilerCorrector, x + 1)
    {
      ghost var start := SweepColumns(recurrent, n, theilerCorrector, x);
      for y := 0 to n
        invariant Snapshot() == SweepRows(start, recurrent, n, theilerCorrector, x, y)
      {
        SweepCell(x, y);
      }
      assert SweepColumns(recurrent, n, theilerCorrector, x + 1) == SweepRows(start, recurrent, n, theilerCorrector, x, n);
    }

    /** One step of the sweep of column `x`: cell `y` after the cells above
        it. */
    method SweepCell(x: nat, y: nat)
      requires x < n && y < n && Sized()
      requires Snapshot() == SweepRows(SweepColumns(recurrent, n, theilerCorrector, x), recurrent, n, theilerCorrector, x, y)
      modifies rqa.recurrencePoints, rqa.diagonalFrequencyDistribution, rqa.verticalFrequencyDistribution,
               rqa.whiteVerticalFrequencyDistribution, carryover.diagonalLengthCarryover,
               carryover.verticalLengthCarryover, carryover.whiteVerticalLengthCarryover
      ensures Snapshot() == SweepRows(SweepColumns(recurrent, n, theilerCorrector, x), recurrent, n, theilerCorrector, x, y + 1)
    {
      VisitBounds(recurrent, n, theilerCorrector, x, y);
      VisitCell(x, y);
    }

    /** Counts the line still open on every diagonal and every column in the
        bucket of its length: with the lines already ended, the distributions
        then hold every line. */
    method FlushCarryovers()
      requires Sized()
      requires Flushable(carryover.diagonalLengthCarryover[..], rqa.diagonalFrequencyDistribution[..],
                         DiagonalLines(recurrent, n, theilerCorrector), n)
      requires Flushable(carryover.verticalLengthCarryover[..], rqa.verticalFrequencyDistribution[..],
                         VerticalLines(recurrent, n), n)
      requires Flushable(carryover.whiteVerticalLengthCarryover[..], rqa.whiteVerticalFrequencyDistribution[..],
                         WhiteVerticalLines(recurrent, n), n)
      modifies rqa.diagonalFrequencyDistribution, rqa.verticalFrequencyDistribution,
               rqa.whiteVerticalFrequencyDistribution
      ensures rqa.recurrencePoints[..] == old(rqa.recurrencePoints[..])
      ensures rqa.diagonalFrequencyDistribution[..] == Histogram(multiset(DiagonalLines(recurrent, n, theilerCorrector)), n)
      ensures rqa.verticalFrequencyDistribution[..] == Histogram(multiset(VerticalLines(recurrent, n)), n)
      ensures rqa.whiteVerticalFrequencyDistribution[..] == Histogram(multiset(WhiteVerticalLines(recurrent, n)), n)
    {
      var dfd, vfd, wfd := rqa.diagonalFrequencyDistribution, rqa.verticalFrequencyDistribution,
                           rqa.whiteVerticalFrequencyDistribution;
      var dc, vc, wc := carryover.diagonalLengthCarryover, carryover.verticalLengthCarryover,
                        carryover.whiteVerticalLengthCarryover;
      ghost var s := Snapshot();
      FlushCarryover(dc, dfd);
      FlushedHistogram(s.diagonalFrequencyDistribution, dc[..], dfd[..], DiagonalLines(recurrent, n, theilerCorrector));
      FlushCarryover(vc, vfd);
      FlushedHistogram(s.verticalFrequencyDistribution, vc[..], vfd[..], VerticalLines(recurrent, n));
      FlushCarryover(wc, wfd);
      FlushedHistogram(s.whiteVerticalFrequencyDistribution, wc[..], wfd[..], WhiteVerticalLines(recurrent, n));
    }

    /** Visits cell `(x, y)`: a recurrence point extends the vertical line of
        column `x` and, outside the Theiler window, the line on its diagonal,
        and ends the white vertical line of column `x`; any other cell ends
        the diagonal and the vertical line and extends the white one. An ended
        line is counted in the bucket of its length. */
    method VisitCell(x: nat, y: nat)
      requires Sized() && x < n && y < n && CellFits(Snapshot(), n, theilerCorrector, x, y)
      modifies rqa.recurrencePoints, rqa.diagonalFrequencyDistribution, rqa.verticalFrequencyDistribution,
               rqa.whiteVerticalFrequencyDistribution, carryover.diagonalLengthCarryover,
               carryover.verticalLengthCarryover, carryover.whiteVerticalLengthCarryover
      ensures Snapshot() == Visit(old(Snapshot()), recurrent, n, theilerCorrector, x, y)
    {
      var rp, dfd, vfd, wfd := rqa.recurrencePoints, rqa.diagonalFrequencyDistribution,
                               rqa.verticalFrequencyDistribution, rqa.whiteVerticalFrequencyDistribution;
      var dc, vc, wc := carryover.diagonalLengthCarryover, carryover.verticalLengthCarryover,
                        carryover.whiteVerticalLengthCarryover;
      var verticalIndex := x;
      var diagonalIndex := n - 1 + (y - x);
      ghost var s' := Visit(Snapshot(), recurrent, n, theilerCorrector, x, y);
      if recurrent(x, y) {
        rp[verticalIndex] := rp[verticalIndex] + 1;
        if Abs(y - x) >= theilerCorrector {
          ExtendLine(dc, diagonalIndex);
        }
        ExtendLine(vc, verticalIndex);
        EndLine(wc, wfd, verticalIndex);
      } else {
        EndLine(dc, dfd, diagonalIndex);
        EndLine(vc, vfd, verticalIndex);
        ExtendLine(wc, verticalIndex);
      }
      assert rp[..] == s'.recurrencePoints;
      assert dc[..] == s'.diagonalLengthCarryover && dfd[..] == s'.diagonalFrequencyDistribution;
      assert vc[..] == s'.verticalLengthCarryover && vfd[..] == s'.verticalFrequencyDistribution;
      assert wc[..] == s'.whiteVerticalLengthCarryover && wfd[..] == s'.whiteVerticalFrequencyDistribution;
    }
  }
}
