# Recurrence quantification analysis, verified

This project models the integer core of pyrqa, a library for recurrence
plots and recurrence quantification analysis (RQA) of time series. The
model is written in Dafny.

- **Recurrence as a parameter.** A time series is embedded into delay
  vectors. Two vectors `x` and `y` *recur* when a neighbourhood holds their
  distance. The model takes that relation as a parameter
  `recurrent: (int, int) -> bool`, so no floating point distance is computed.
- **What is counted.** Over the `n x n` recurrence matrix the analysis
  counts:
  - the recurrence points of every column;
  - the frequency distributions of diagonal, vertical and white vertical
    lines, where bucket `i` counts the lines of exactly `i + 1` cells;
  - diagonals inside the Theiler window `|y - x| < theilerCorrector` are not
    counted.
- **Tiled computation.** The parallel implementations cut the matrix into
  sub matrices. They schedule those tiles in execution levels and pass
  unfinished lines from tile to tile through carryover buffers.

The modules:

- `Runs`: the run-length sweep every line extractor performs.
  - Its state is a carryover plus the runs already ended.
  - It is defined independently by `MaximalRuns`, the maximal runs of a line.
  - The lemmas prove that the sweep, with its end-of-line flush, records
    exactly the maximal runs.
  - They prove that a sweep can be split anywhere and resumed from its
    carryover.
  - They prove conservation: the points on the lines equal the cells counted.
- `RecurrenceAnalysis`: the shared state of the tiled computation.
  - The partition into sub matrices and their levels per processing order.
  - The slices of the carryover buffers that belong to a tile.
  - The bit matrix size.
  - The host-side post-processing: the flushes and the symmetric doubling.
  - The global plot a tile is pasted into.
- `RqaBaseline`: the reference quantification analysis, a sequential sweep
  over the full matrix on arrays.
  - Its specification is a fold (`SweepColumns`) of one cell visit over a
    value snapshot of the seven arrays.
  - The lemmas connect that fold to the maximal runs of the columns, white
    columns and diagonals.
- `PlotBaseline`: the reference recurrence plot, filled cell by cell.
- `Result`: the counts a result draws from the distributions, the minimum
  line length setters, and two queries.
- `Settings`: the embedding arithmetic, the delay vectors, the symmetry
  decision and the kernel configuration lookup.
- `Neighbourhood`: the membership tests of the three neighbourhoods, over
  `real`.
- `FileReader`: extracting one column of numbers from the lines of a
  file, with the number parser as a parameter.
- `Slicing`: Python's clamped slice bounds.

## Model

| member | source | states |
|---|---|---|
| Slicing.SliceIndex | pyrqa/file_reader.py:33-34 | a slice bound counts from the end when negative and is clamped into `[0, len]` |
| Slicing.SliceBounds | pyrqa/file_reader.py:33-34 | a slice is the plain subsequence within bounds, `s[a..]` past the end, otherwise element `k` is `s[lo + k]` of the clamped bounds |
| Runs.Step | pyrqa/rqa/fixed_radius/plain/baseline.py:62-88 | one cell of a line: a counted cell lengthens the open run, an uncounted one ends it (recording it if positive) and clears the carryover; `ScanConserves` and `LineRunsAreMaximalRuns` state what the steps add up to |
| Runs.Scan | pyrqa/rqa/fixed_radius/plain/baseline.py:48-88 | the sweep of a line from a carryover; the carryover never exceeds the start carryover plus the cells, and `ScanSplit` shows a sweep can be resumed from its carryover |
| Runs.Flush | pyrqa/rqa/fixed_radius/plain/baseline.py:90-100 | the end-of-line flush; `LineRunsAreMaximalRuns` proves sweep plus flush records exactly the maximal runs |
| Runs.LeadingRun | pyrqa/rqa/fixed_radius/plain/baseline.py:58-88 | the leading run is all recurrent cells and is ended by a non-recurrent cell or the end of the line |
| Runs.MaximalRunsBounded | pyrqa/rqa/fixed_radius/plain/baseline.py:66-100 | every maximal run of a line has between 1 and as many cells as the line, so it has a bucket |
| Runs.ScanSplit | pyrqa/rqa/fixed_radius/plain/baseline.py:48-88 | sweeping `s + t` is sweeping `s`, then resuming on `t` from the saved carryover: same runs, same final carryover |
| Runs.SweepRecordsMaximalRuns | pyrqa/rqa/fixed_radius/plain/baseline.py:58-100 | a sweep started from carryover `c`, then flushed, records the maximal runs of `c` recurrent cells followed by the line |
| Runs.LineRunsAreMaximalRuns | pyrqa/rqa/fixed_radius/plain/baseline.py:58-100 | sweeping a line from a zero carryover and flushing records exactly its maximal runs, in order |
| Runs.MaximalRunsCount | pyrqa/rqa/fixed_radius/plain/baseline.py:66-100 | the number of length-`len` runs listed equals the number of positions where a maximal run of exactly `len` cells starts |
| Runs.LineRunsCount | pyrqa/rqa/fixed_radius/plain/baseline.py:66-100 | the sweep records a run of length `len` once for every maximal run of exactly `len` cells |
| Runs.NoCellNoRun | pyrqa/rqa/fixed_radius/plain/baseline.py:63-64 | a line without a counted cell ends no run, keeps a zero carryover and has no maximal runs |
| Runs.ScanConserves | pyrqa/rqa/fixed_radius/plain/baseline.py:58-88 | the lengths of the ended runs plus the carryover equal the initial carryover plus the counted cells |
| Runs.LineRunsConserve | pyrqa/rqa/fixed_radius/plain/baseline.py:58-100 | the recorded runs of a line, and its maximal runs, sum to its number of counted cells |
| Runs.SumAppend | pyrqa/result.py:123-125 | helper for `SetNumberOfRecurrencePoints`: the `Sum` that models `np.sum` is additive over concatenation |
| Runs.CountTrueAppend | pyrqa/rqa/fixed_radius/plain/baseline.py:58-60 | counting cells over a concatenation adds the two counts |
| Runs.CountComplement | pyrqa/rqa/fixed_radius/plain/baseline.py:58-88 | recurrent and non-recurrent cells of a line add up to its length |
| Runs.WeightedSumBump | pyrqa/rqa/fixed_radius/plain/baseline.py:90-100 | one more line in bucket `j` adds `j + 1` points to the weighted sum, the step of every flush |
| Runs.WeightedSumOfHistogram | pyrqa/rqa/fixed_radius/plain/baseline.py:90-100 | the distribution built from runs of `1..size` cells covers exactly as many points as the runs hold |
| Runs.ZeroWeightedSum | pyrqa/result.py:134-139 | helper for `SetNumberOfLinesPoints` and the flush lemmas: an all-zero distribution covers no points |
| Runs.WeightedSumOfFlush | pyrqa/recurrence_analysis.py:513-522 | flushing a carryover buffer whose entries fit the distribution, zeros included, adds exactly the sum of the buffer to the distribution's weighted sum |
| Runs.CarriesAre | pyrqa/rqa/fixed_radius/plain/baseline.py:58-88 | carryover arrays that hold each line's sweep carryover are the family's carryovers |
| Runs.EndedRunsAdvance | pyrqa/rqa/fixed_radius/plain/baseline.py:58-88 | visiting one more cell of line `i` adds to the ended runs exactly the run that this step ends |
| Runs.NothingEnded | pyrqa/rqa/fixed_radius/plain/baseline.py:42-43 | before any cell is visited no run has ended |
| Runs.FlushedRunsCount | pyrqa/rqa/fixed_radius/plain/baseline.py:90-100 | for every length, the ended runs plus the flushed carryovers of a family count its maximal runs |
| Runs.FlushedLineCount | pyrqa/rqa/fixed_radius/plain/baseline.py:90-100 | for one line, the ended runs plus its flushed carryover count its maximal runs of every length |
| Runs.AllMaximalRunsConserve | pyrqa/rqa/fixed_radius/plain/baseline.py:58-100 | the weighted sum of a family's distribution equals its number of counted cells |
| Runs.AllMaximalRunsBounded | pyrqa/rqa/fixed_radius/plain/baseline.py:90-100 | every maximal run of a family of lines no longer than `n` has a bucket among the `n` |
| Runs.SumOfAllMaximalRuns | pyrqa/rqa/fixed_radius/plain/baseline.py:58-100 | the maximal runs of a family sum to its counted cells |
| Runs.CountAllIsSum | pyrqa/rqa/fixed_radius/plain/baseline.py:58-60 | the counted cells of a family are the sum of its per-line counts |
| Runs.CountAllComplement | pyrqa/rqa/fixed_radius/plain/baseline.py:58-88 | a family and its complement together count `lines * size` cells |
| Runs.AllMaximalRunsCount | pyrqa/rqa/fixed_radius/plain/baseline.py:66-100 | the runs of length `len` of a family count the maximal runs of exactly `len` cells over all its lines |
| RecurrenceAnalysis.ClampEdgeLength | pyrqa/recurrence_analysis.py:151-152 | the edge length is at most 65535 and at most the requested one, unchanged when it is within the bound, and positive when the requested one is |
| RecurrenceAnalysis.CeilDiv | pyrqa/recurrence_analysis.py:153 | `ceil(a / b)`, as `math.ceil` of the float quotient; its bounds are `CeilDivBounds` |
| RecurrenceAnalysis.NumberOfPartitions | pyrqa/recurrence_analysis.py:153 | the number of partitions per axis, `ceil(n / edgeLength)`; constrained by `PartitionBounds` and `PartitionOf` |
| RecurrenceAnalysis.PartitionStart | pyrqa/recurrence_analysis.py:158-170 | partition `i` starts at vector `i * edgeLength`; constrained by `PartitionBounds` |
| RecurrenceAnalysis.PartitionDim | pyrqa/recurrence_analysis.py:158-170 | the last partition takes the remaining vectors, every other one `edgeLength`; `PartitionBounds` proves each has 1 to `edgeLength` |
| RecurrenceAnalysis.QueueIndex | pyrqa/recurrence_analysis.py:179-187 | the level of `(px, py)`: `px + py` in diagonal order, `py` in vertical order, 0 in bulk; constrained by `LevelBounded` and `LevelSharesNoPartition` |
| RecurrenceAnalysis.NumberOfLevels | pyrqa/recurrence_analysis.py:189-190 | the number of queues the enumeration creates on demand; `LevelInhabited` and `LevelBounded` prove it is exactly the levels used |
| RecurrenceAnalysis.CeilDivBounds | pyrqa/recurrence_analysis.py:153 | `ceil(a / b)` partitions of `b` cover `a`, and one fewer does not |
| RecurrenceAnalysis.PartitionBounds | pyrqa/recurrence_analysis.py:151-177 | each partition has between 1 and `edgeLength` vectors, ends within `n` and ends where the next one starts; the last ends at `n` |
| RecurrenceAnalysis.PartitionsOrdered | pyrqa/recurrence_analysis.py:151-177 | the ranges of different partitions do not overlap |
| RecurrenceAnalysis.PartitionOf | pyrqa/recurrence_analysis.py:151-177 | every vector index lies in exactly one partition |
| RecurrenceAnalysis.LevelInhabited | pyrqa/recurrence_analysis.py:179-192 | every level below the number of levels holds a sub matrix |
| RecurrenceAnalysis.LevelBounded | pyrqa/recurrence_analysis.py:179-192 | every sub matrix's level is below the number of levels |
| RecurrenceAnalysis.LevelSharesNoPartition | pyrqa/recurrence_analysis.py:179-192 | in diagonal and vertical order two sub matrices of one level have different column partitions; in diagonal order, different row partitions too |
| RecurrenceAnalysis.ColumnLevelsIncrease | pyrqa/recurrence_analysis.py:179-192 | in diagonal and vertical order the sub matrices of one column fall in strictly increasing levels |
| RecurrenceAnalysis.SubMatrices.constructor | pyrqa/recurrence_analysis.py:132-144 | a new scheduler clamps the edge length and holds the schedule of every sub matrix |
| RecurrenceAnalysis.SubMatrices.Reset | pyrqa/recurrence_analysis.py:143-144 | resetting rebuilds the complete schedule |
| RecurrenceAnalysis.SubMatrices.CreateSubMatrices | pyrqa/recurrence_analysis.py:146-192 | the edge length is clamped to 65535, and the queues hold exactly the sub matrices of the grid, each in the queue of its level, in enumeration order |
| RecurrenceAnalysis.SubMatrices.EnqueueSubMatrix | pyrqa/recurrence_analysis.py:163-192 | appending sub matrix `(px, py)` keeps the partial schedule; its queue exists already or is the next one |
| RecurrenceAnalysis.QueueReachable | pyrqa/recurrence_analysis.py:179-192 | a level never exceeds the current queue count, so appending on demand suffices |
| RecurrenceAnalysis.EnqueueKeepsProgress | pyrqa/recurrence_analysis.py:163-192 | appending to the queue of the level keeps the invariant of the enumeration |
| RecurrenceAnalysis.EnqueuedQueues | pyrqa/recurrence_analysis.py:179-192 | after the append every queue is non-empty and holds sub matrices of its own level, enumerated so far, in enumeration order |
| RecurrenceAnalysis.EnqueuedCoverage | pyrqa/recurrence_analysis.py:163-192 | after the append every sub matrix enumerated so far is in the queue of its level |
| RecurrenceAnalysis.ScheduleRowDone | pyrqa/recurrence_analysis.py:163-192 | the invariant carries over from one column partition to the next |
| RecurrenceAnalysis.ScheduleDone | pyrqa/recurrence_analysis.py:146-192 | after the enumeration the queues are the complete schedule |
| RecurrenceAnalysis.ColumnRange | pyrqa/recurrence_analysis.py:388-465 | the column slice of a sub matrix has one entry per column and holds the column of every cell of the tile |
| RecurrenceAnalysis.DiagonalRange | pyrqa/recurrence_analysis.py:467-511 | with symmetry the diagonal slice has `dimX` entries; without, it holds the diagonal `n - 1 + x - y` of every cell of the tile |
| RecurrenceAnalysis.DiagonalOffset | pyrqa/recurrence_analysis.py:531-543 | 1 for a sub matrix left of the main diagonal block, 0 otherwise; `SymmetricDiagonalRangeWithin` proves the cells of the first kind all have `x < y` |
| RecurrenceAnalysis.ColumnRangeWithin | pyrqa/recurrence_analysis.py:388-465 | the recurrence point and vertical carryover slice of a sub matrix is `[startX, startX + dimX)`, inside `[0, n)` |
| RecurrenceAnalysis.ColumnRangesDisjoint | pyrqa/recurrence_analysis.py:388-465 | sub matrices of different column partitions own disjoint column slices |
| RecurrenceAnalysis.DiagonalRangeIsCrossedDiagonals | pyrqa/recurrence_analysis.py:467-511 | without symmetry the diagonal slice lies in `[0, 2n - 1)` and is exactly the set of diagonals `n - 1 + x - y` of the tile's cells |
| RecurrenceAnalysis.DiagonalRangesDisjoint | pyrqa/recurrence_analysis.py:467-511 | without symmetry the sub matrices of one diagonal level own disjoint diagonal slices |
| RecurrenceAnalysis.SymmetricDiagonalRangeWithin | pyrqa/recurrence_analysis.py:467-543 | with symmetry the diagonal slice has `dimX` entries within `[0, n]`; the offset is 1 exactly for tiles above the main diagonal block, whose cells all have `x < y` |
| RecurrenceAnalysis.GridTile | pyrqa/recurrence_analysis.py:158-177 | the sub matrix at partition indices `(px, py)` keeps those indices, has 1 to `edgeLength` vectors per axis and lies within the `n x n` matrix |
| RecurrenceAnalysis.GridCoversMatrix | pyrqa/recurrence_analysis.py:146-177 | every cell of the matrix lies in exactly one sub matrix of the grid |
| RecurrenceAnalysis.ScheduleCoversMatrix | pyrqa/recurrence_analysis.py:146-192 | every cell of the matrix lies in some sub matrix of some queue of a schedule |
| RecurrenceAnalysis.BitMatrixSize | pyrqa/recurrence_analysis.py:290-303 | `dimX * ceil(dimY / bits)` elements and their size in bytes; constrained by `BitMatrixFits` |
| RecurrenceAnalysis.BitMatrixFits | pyrqa/recurrence_analysis.py:290-303 | the bit matrix has a bit for every cell of every column, and no column takes an element more than it needs |
| RecurrenceAnalysis.DecrementUInt64 | pyrqa/recurrence_analysis.py:86-87 | one less modulo `2^64`, as the unsigned 64-bit `-= 1` on the last bucket wraps at 0, and it stays below `2^64` |
| RecurrenceAnalysis.ExtendedDistribution | pyrqa/recurrence_analysis.py:82-87 | with symmetry every bucket doubles, and the last one loses one (wrapping at 0) when the Theiler corrector is 0, the one falsy value of the integer corrector; without symmetry nothing changes |
| RecurrenceAnalysis.Rqa.ExtentDiagonalFrequencyDistribution | pyrqa/recurrence_analysis.py:82-87 | the distribution becomes its extension, in place |
| RecurrenceAnalysis.FlushCarryover | pyrqa/recurrence_analysis.py:513-522 | bucket `len - 1` gains one for every carryover entry equal to `len`; zero entries add nothing, the carryovers are untouched; the weighted sum grows by the sum of the carryovers |
| RecurrenceAnalysis.RqaSubMatricesCarryover.PostProcessLengthCarryovers | pyrqa/recurrence_analysis.py:513-522 | each of the three distributions gains the lines still open in its length carryover, and its weighted sum grows by exactly the cells those carryovers hold |
| RecurrenceAnalysis.RqaSubMatricesCarryover.PostProcessWhiteVerticalIndexCarryover | pyrqa/recurrence_analysis.py:524-529 | the white vertical distribution gains, per column, the line of `n - idx - 1` cells after its last recurrence point |
| RecurrenceAnalysis.TrailingWhiteLengths | pyrqa/recurrence_analysis.py:524-529 | one length per column, `idx + length == n - 1`: the rows after the last recurrence point |
| RecurrenceAnalysis.Rqa.constructor | pyrqa/recurrence_analysis.py:49-80 | the recurrence points and the three distributions start as `n` zeros |
| RecurrenceAnalysis.Rqa.Reset | pyrqa/recurrence_analysis.py:61-62 | resetting gives fresh zeroed arrays |
| RecurrenceAnalysis.Carryover.constructor | pyrqa/recurrence_analysis.py:324-342 | the six carryovers start at zero: `n` diagonal entries with symmetry, `2n - 1` without, `n` per column |
| RecurrenceAnalysis.Carryover.Reset | pyrqa/recurrence_analysis.py:344-346 | resetting gives fresh zeroed carryovers of the same sizes |
| RecurrenceAnalysis.RqaSubMatricesCarryover.constructor | pyrqa/recurrence_analysis.py:378-381 | the analysis starts cleared, with a clamped edge length; its parts and distributions are new objects, so `Reset` and the post-processing can be called on it |
| RecurrenceAnalysis.RqaSubMatricesCarryover.Reset | pyrqa/recurrence_analysis.py:383-386 | resetting clears the arrays and carryovers into new arrays and rebuilds the complete schedule |
| RecurrenceAnalysis.RecurrencePlot.constructor | pyrqa/recurrence_analysis.py:27-35 | a new plot is an `n x n` matrix of zeros |
| RecurrenceAnalysis.RecurrencePlot.Reset | pyrqa/recurrence_analysis.py:36-38 | resetting gives a fresh zero matrix |
| RecurrenceAnalysis.RecurrencePlotSubMatrices.constructor | pyrqa/recurrence_analysis.py:354-356 | the plot starts cleared, with the complete schedule; plot, matrix and schedule are new objects, so `Run` can be called on it |
| RecurrenceAnalysis.RecurrencePlotSubMatrices.Reset | pyrqa/recurrence_analysis.py:358-360 | resetting clears the plot and keeps the schedule |
| RecurrenceAnalysis.RecurrencePlotSubMatrices.InsertSubMatrix | pyrqa/recurrence_analysis.py:362-367 | every cell of the tile takes the row-major entry of the data; every other cell keeps its value |
| RecurrenceAnalysis.PlotCell | pyrqa/recurrence_plot/fixed_radius/plain/baseline.py:48-49 | the plot cell is 1 when the vectors recur, else 0; `PlotBaseline.Baseline.Run` and `RecurrencePlotSubMatrices.InsertSubMatrices` prove each plot equals it everywhere |
| RecurrenceAnalysis.TileData | pyrqa/recurrence_analysis.py:362-367 | the data of one sub matrix, read in the row-major order the insertion reshapes it by, is the plot cell of every cell of the tile |
| RecurrenceAnalysis.RecurrencePlotSubMatrices.InsertTile | pyrqa/recurrence_plot/fixed_radius/opencl/column_byte.py:171 | inserting one computed tile keeps every cell inserted before, and makes the tile's cells plot cells too |
| RecurrenceAnalysis.RecurrencePlotSubMatrices.InsertSubMatrices | pyrqa/recurrence_plot/fixed_radius/opencl/column_byte.py:184-187 | after every queue of the schedule is drained and each tile inserted, cell `[y, x]` of the plot is `PlotCell(recurrent, x, y)`, the same plot `PlotBaseline.Baseline.Run` computes, whatever the plot held before |
| RecurrenceAnalysis.RecurrencePlotSubMatrices.Run | pyrqa/recurrence_plot/fixed_radius/opencl/column_byte.py:204-212 | reset, then every tile: the tiled plot is `n x n` and equals the recurrence plot cell for cell |
| RqaBaseline.VerticalLinesCoverRecurrencePoints | pyrqa/rqa/fixed_radius/plain/baseline.py:58-100 | the points on all vertical lines equal the sum of the recurrence points |
| RqaBaseline.WhiteVerticalLinesCoverTheRest | pyrqa/rqa/fixed_radius/plain/baseline.py:58-100 | the points on all white vertical lines equal `n * n` minus the recurrence points |
| RqaBaseline.DiagonalLinesCoverDiagonalPoints | pyrqa/rqa/fixed_radius/plain/baseline.py:58-100 | the points on all diagonal lines equal the recurrent cells outside the Theiler window |
| RqaBaseline.BucketsCountLines | pyrqa/rqa/fixed_radius/plain/baseline.py:58-100 | bucket `len - 1` of each distribution counts the maximal runs of exactly `len` cells of its family |
| RqaBaseline.SweptAdvance | pyrqa/rqa/fixed_radius/plain/baseline.py:45-48 | advancing one line's progress adds its next cell to the visited part |
| RqaBaseline.SweptNothing | pyrqa/rqa/fixed_radius/plain/baseline.py:42-43 | with no progress no cell is visited |
| RqaBaseline.SweptInFull | pyrqa/rqa/fixed_radius/plain/baseline.py:45-88 | with full progress every line is visited |
| RqaBaseline.DiagonalAdvance | pyrqa/rqa/fixed_radius/plain/baseline.py:49-64 | cell `(x, y)` is the next cell of diagonal `n - 1 + y - x`, visited in increasing `x`, and counts when it recurs outside the Theiler window |
| RqaBaseline.DiagonalNextColumn | pyrqa/rqa/fixed_radius/plain/baseline.py:45-48 | finishing column `x` is starting column `x + 1` for the diagonals |
| RqaBaseline.DiagonalEnds | pyrqa/rqa/fixed_radius/plain/baseline.py:45-88 | no diagonal is visited at the start, and every diagonal in full at the end |
| RqaBaseline.SweepStateAdvance | pyrqa/rqa/fixed_radius/plain/baseline.py:58-88 | one step of a sweep keeps the distribution counting the runs ended so far |
| RqaBaseline.RecordCounts | pyrqa/rqa/fixed_radius/plain/baseline.py:66-88 | recording one cell adds to the distribution exactly the run it ends |
| RqaBaseline.PointsAdvance | pyrqa/rqa/fixed_radius/plain/baseline.py:58-60 | visiting a recurrent cell adds one to its column's points |
| RqaBaseline.TheilerWindowIdle | pyrqa/rqa/fixed_radius/plain/baseline.py:63-64 | a diagonal inside the Theiler window keeps a zero carryover and has no lines |
| RqaBaseline.SweepStateComplete | pyrqa/rqa/fixed_radius/plain/baseline.py:90-100 | after a whole family, the distribution plus the carryovers count its maximal runs |
| RqaBaseline.SweepStateStart | pyrqa/rqa/fixed_radius/plain/baseline.py:37-43 | zero carryovers and distributions describe the start of a sweep |
| RqaBaseline.Zeros | pyrqa/rqa/fixed_radius/plain/baseline.py:33-35 | a cleared array has `count` zero entries |
| RqaBaseline.Cleared | pyrqa/rqa/fixed_radius/plain/baseline.py:33-40 | the cleared arrays have `n` entries, the diagonal carryover `2n - 1` whatever the symmetry |
| RqaBaseline.Visit | pyrqa/rqa/fixed_radius/plain/baseline.py:49-88 | one cell of the sweep keeps the sizes of the seven arrays; `CellAdvance` proves it keeps the state of the sweep, and `Baseline.SweepCell` that the loop body performs it |
| RqaBaseline.SweepStarts | pyrqa/rqa/fixed_radius/plain/baseline.py:42-45 | the invariant of the sweep holds on cleared arrays |
| RqaBaseline.ColumnWraps | pyrqa/rqa/fixed_radius/plain/baseline.py:45-48 | finishing column `x` keeps the invariant at the top of column `x + 1` |
| RqaBaseline.SweepRowsInvariant | pyrqa/rqa/fixed_radius/plain/baseline.py:48-88 | the first `y` cells of column `x` keep the invariant |
| RqaBaseline.RowAdvance | pyrqa/rqa/fixed_radius/plain/baseline.py:48-88 | one more row of column `x` keeps the invariant |
| RqaBaseline.ColumnDone | pyrqa/rqa/fixed_radius/plain/baseline.py:45-88 | a whole column keeps the invariant |
| RqaBaseline.SweepColumnsInvariant | pyrqa/rqa/fixed_radius/plain/baseline.py:45-88 | the first `x` columns keep the invariant |
| RqaBaseline.VisitBounds | pyrqa/rqa/fixed_radius/plain/baseline.py:49-88 | during the sweep every index written is in range and every carryover is at most `n`, so every bucket exists |
| RqaBaseline.CellBounds | pyrqa/rqa/fixed_radius/plain/baseline.py:49-88 | under the invariant the arrays have their sizes and the carryovers fit the distributions |
| RqaBaseline.CellAdvance | pyrqa/rqa/fixed_radius/plain/baseline.py:58-88 | visiting cell `(x, y)` keeps the invariant at `(x, y + 1)` |
| RqaBaseline.ColumnCellAdvance | pyrqa/rqa/fixed_radius/plain/baseline.py:58-88 | the visit keeps the points and both vertical families in step |
| RqaBaseline.VerticalAdvance | pyrqa/rqa/fixed_radius/plain/baseline.py:66-88 | one cell of a column keeps its vertical sweep in step |
| RqaBaseline.DiagonalLineAdvance | pyrqa/rqa/fixed_radius/plain/baseline.py:62-81 | the visit keeps the diagonal sweep in step |
| RqaBaseline.SweepEnds | pyrqa/rqa/fixed_radius/plain/baseline.py:45-100 | after all columns the points are the column counts, and every family is ready for its flush |
| RqaBaseline.PointsEnd | pyrqa/rqa/fixed_radius/plain/baseline.py:58-60 | after all columns the points of column `x` count the `y` with `recurrent(x, y)` |
| RqaBaseline.DiagonalsEnd | pyrqa/rqa/fixed_radius/plain/baseline.py:90-92 | after all columns the diagonal family is ready for its flush |
| RqaBaseline.FamilyEnd | pyrqa/rqa/fixed_radius/plain/baseline.py:90-100 | a family swept in full is ready for its flush |
| RqaBaseline.FlushedHistogram | pyrqa/rqa/fixed_radius/plain/baseline.py:90-100 | the flushed distribution is the distribution of the family's maximal runs |
| RqaBaseline.ExtendLine | pyrqa/rqa/fixed_radius/plain/baseline.py:62-70 | a counted cell lengthens the line in progress by one |
| RqaBaseline.EndLine | pyrqa/rqa/fixed_radius/plain/baseline.py:67-88 | an uncounted cell records the line in progress, if any, and clears the carryover |
| RqaBaseline.Baseline.constructor | pyrqa/rqa/fixed_radius/plain/baseline.py:25-35 | a new analysis is cleared, its parts agree on `n` and are new objects, so `Run` can be called on it |
| RqaBaseline.Baseline.Reset | pyrqa/rqa/fixed_radius/plain/baseline.py:37-40 | resetting clears every array, the diagonal carryover to `2n - 1` zeros |
| RqaBaseline.Baseline.Run | pyrqa/rqa/fixed_radius/plain/baseline.py:42-100 | the recurrence points are the column counts, and bucket `len - 1` of each distribution counts the maximal runs of exactly `len` cells of its family; the result does not depend on the state before |
| RqaBaseline.Baseline.Sweep | pyrqa/rqa/fixed_radius/plain/baseline.py:45-88 | the column loop leaves the arrays equal to the fold over all columns |
| RqaBaseline.Baseline.SweepColumn | pyrqa/rqa/fixed_radius/plain/baseline.py:48-88 | the row loop adds one column to the fold |
| RqaBaseline.Baseline.SweepCell | pyrqa/rqa/fixed_radius/plain/baseline.py:49-88 | one iteration adds one cell to the fold |
| RqaBaseline.Baseline.VisitCell | pyrqa/rqa/fixed_radius/plain/baseline.py:49-88 | the branches on a recurrent cell update the arrays as one visit of the fold |
| RqaBaseline.Baseline.FlushCarryovers | pyrqa/rqa/fixed_radius/plain/baseline.py:90-100 | the three flush loops turn each distribution into that of its family's maximal runs; the points are unchanged |
| PlotBaseline.SymmetricPlot | pyrqa/recurrence_plot/fixed_radius/plain/baseline.py:39-49 | a symmetric recurrence relation gives plot cells equal to their transposes; used by `Baseline.Run` |
| PlotBaseline.Baseline.constructor | pyrqa/recurrence_plot/fixed_radius/plain/baseline.py:25-33 | a new plot is cleared and a new object, so `Run` can be called on it |
| PlotBaseline.Baseline.CreateMatrix | pyrqa/recurrence_plot/fixed_radius/plain/baseline.py:35-49 | cell `[y, x]` becomes 1 when `x` and `y` recur and keeps its value otherwise |
| PlotBaseline.Baseline.Run | pyrqa/recurrence_plot/fixed_radius/plain/baseline.py:51-55 | the plot is `n x n` and cell `[y, x]` is 1 exactly when `x` and `y` recur, else 0, whatever the state before; for a symmetric relation the plot equals its transpose |
| Neighbourhood.FanContains | pyrqa/neighbourhood.py:74-79 | a FAN holds `idx` exactly when its indices are set and contain `idx`; the test fails when they are not set |
| Neighbourhood.Contains | pyrqa/neighbourhood.py:22-51 | the radius test, `distance < radius` or `inner < distance < outer`; stated by `FixedRadiusIsStrict` and `CorridorIsStrict` |
| Neighbourhood.ClassName | pyrqa/neighbourhood.py:13-61 | the class name of each neighbourhood, the key `GetKernelFileNames` looks up |
| Neighbourhood.FixedRadiusIsStrict | pyrqa/neighbourhood.py:22-27 | a fixed radius holds exactly the distances below it, not the radius itself |
| Neighbourhood.CorridorIsStrict | pyrqa/neighbourhood.py:46-51 | a corridor holds exactly the distances strictly between its radii |
| Neighbourhood.EmptyCorridor | pyrqa/neighbourhood.py:46-51 | a corridor whose inner radius is not below its outer one holds nothing |
| Neighbourhood.CorridorWithinOuterRadius | pyrqa/neighbourhood.py:46-51 | a corridor lies within the fixed radius of its outer radius |
| Neighbourhood.RadiusMonotone | pyrqa/neighbourhood.py:22-27 | a larger radius holds every distance a smaller one holds |
| Settings.LagIsProduct | pyrqa/settings.py:67-70 | the span `(m - 1) * t` of a delay vector is the product |
| Settings.LagMonotone | pyrqa/settings.py:114-120 | later elements of a delay vector lie further along the series |
| Settings.Reshape | pyrqa/settings.py:131-134 | the flat vector cut into rows has `count` rows |
| Settings.Settings.DiagonalKernelName | pyrqa/settings.py:86-92 | the kernel name is `diagonal_symmetric` exactly when the matrix is symmetric, `diagonal` otherwise |
| Settings.Settings.Elements | pyrqa/settings.py:116-120 | the elements of one delay vector are `count` values |
| Settings.Settings.ElementsAt | pyrqa/settings.py:116-120 | element `d` of a delay vector is `timeSeries[i + d * t]`, and that index is in range |
| Settings.Settings.DelayVectors | pyrqa/settings.py:105-120 | the delay vectors of `cnt` indices have `cnt * m` elements |
| Settings.Settings.DelayVectorsPrefix | pyrqa/settings.py:114-120 | the first `k` delay vectors are a prefix of the first `cnt` |
| Settings.Settings.DelayVectorsRow | pyrqa/settings.py:114-120 | elements `k * m` to `k * m + m` are the delay vector of `start + k` |
| Settings.Settings.ReshapeRows | pyrqa/settings.py:122-134 | row `i - start` of the reshaped vectors is the delay vector of `i` |
| Settings.Settings.GetVectors | pyrqa/settings.py:105-120 | the loops succeed exactly when every index read is in range, giving the delay vectors; otherwise they raise an index error |
| Settings.Settings.GetVectorsAs2dArray | pyrqa/settings.py:122-134 | the result has `count` rows, row `i - start` the delay vector of `i`; an index error out of range, a division error for an empty embedding |
| Settings.Settings.GetKernelFileNames | pyrqa/settings.py:136-151 | the file names of the first matching entry; an error naming the class exactly when no entry matches |
| Settings.DelayVectorAt | pyrqa/settings.py:114-120 | element `d` of the delay vector of `i` is `timeSeries[i + d * t]`, within the series |
| Settings.VectorsUseUpTimeSeries | pyrqa/settings.py:67-75 | the offset is `(m - 1) * t`; exactly `number_of_vectors` delay vectors fit the series |
| Settings.Settings.Offset | pyrqa/settings.py:67-70 | the span `(m - 1) * t` a delay vector covers beyond its first element; constrained by `VectorsUseUpTimeSeries` |
| Settings.Settings.NumberOfVectors | pyrqa/settings.py:72-75 | the series length minus the offset; `VectorsUseUpTimeSeries` proves exactly that many delay vectors fit |
| Settings.Settings.GetTimeSeries | pyrqa/settings.py:94-103 | the slice of the series that `cnt` vectors from `start` are built from; stated by `TimeSeriesWindow` |
| Settings.TimeSeriesWindow | pyrqa/settings.py:94-103 | the window is `timeSeries[start..start + cnt + offset]`, it holds exactly `cnt` delay vectors, and vector `k` of it is vector `start + k` of the series |
| Settings.ElementsShift | pyrqa/settings.py:94-120 | a delay vector of a window is the shifted delay vector of the series |
| Settings.SymmetryOfNeighbourhoods | pyrqa/settings.py:77-84 | the matrix is never symmetric with FAN, and otherwise symmetric exactly when the metric is |
| Settings.Settings.IsMatrixSymmetric | pyrqa/settings.py:77-84 | a symmetric metric with a fixed radius or a radius corridor; stated by `SymmetryOfNeighbourhoods` |
| FileReader.LeadingSpaces | pyrqa/file_reader.py:39 | the whitespace a line begins with is all removed, and what follows is not whitespace |
| FileReader.TrailingSpaces | pyrqa/file_reader.py:39 | the whitespace a line ends with is all removed, and what precedes it is not whitespace |
| FileReader.Strip | pyrqa/file_reader.py:39 | `str.strip()` on Python whitespace; `StripIsInfix` proves it removes exactly the whitespace around the kept piece |
| FileReader.StripIsInfix | pyrqa/file_reader.py:39 | a stripped line is the piece `s[i..j]` of the line with only whitespace before and after it, and neither end of it is whitespace |
| FileReader.Split | pyrqa/file_reader.py:39 | splitting gives at least one field, and no field holds the delimiter |
| FileReader.JoinSplit | pyrqa/file_reader.py:39 | joining the fields with the delimiter gives the line back |
| FileReader.SplitJoin | pyrqa/file_reader.py:39 | splitting joined fields free of the delimiter gives the fields back |
| FileReader.SplitCount | pyrqa/file_reader.py:39-40 | a line has one field more than it has delimiters |
| FileReader.FieldAt | pyrqa/file_reader.py:40-41 | a field index is valid in `[-len, len)`, negative indices counting from the end |
| FileReader.Fates | pyrqa/file_reader.py:38-44 | every line has a fate |
| FileReader.Kept | pyrqa/file_reader.py:33-34 | an offset below the number of lines drops that many lines (a negative one keeps the last lines); a larger one drops none |
| FileReader.ReadFailsAtFailedLine | pyrqa/file_reader.py:38-44 | reading fails exactly when some line's field does not exist or does not parse |
| FileReader.ReadAccountsForEveryLine | pyrqa/file_reader.py:36-44 | the values plus the unprocessable lines equal the lines read |
| FileReader.NothingSkipped | pyrqa/file_reader.py:40-44 | if no line is skipped, the count of unprocessable lines is zero |
| FileReader.FirstColumnSkipsNothing | pyrqa/file_reader.py:39-44 | with column 0 no line is unprocessable and every line gives a value |
| FileReader.FailureStops | pyrqa/file_reader.py:38-41 | once a line fails, later lines change nothing |
| FileReader.ReadInOrder | pyrqa/file_reader.py:37-44 | the values of two blocks of lines are those of the first followed by those of the second |
| FileReader.FatesAppend | pyrqa/file_reader.py:38 | the fates of two blocks of lines are concatenated |
| FileReader.ReadOneLine | pyrqa/file_reader.py:38-44 | one line is skipped and counted, gives its value, or fails |
| FileReader.Fate | pyrqa/file_reader.py:39-44 | what one line gives: a value, a skip or a failure; `FateOfColumn` proves a skip exactly when the line has too few fields, and the parse of the field otherwise |
| FileReader.FateOfColumn | pyrqa/file_reader.py:39-44 | a line gives a value exactly when its stripped, split form has more than `column` fields, and the value is the parse of field `column` |
| FileReader.ReadPrefix | pyrqa/file_reader.py:38-44 | reading one more line is one more step of the fold |
| FileReader.ReadStopsAt | pyrqa/file_reader.py:38-41 | a read that has failed stays failed |
| FileReader.ReadLine | pyrqa/file_reader.py:39-44 | the branches on one line give its fate |
| FileReader.FileAsFloatArray | pyrqa/file_reader.py:20-49 | the result is the fold of the line fates over the lines kept after the offset |
| FileReader.ReadEveryLine | pyrqa/file_reader.py:36-44 | the loop over the lines gives the fold of their fates: the values in order and the count of skipped lines, or the first failure |
| Result.Tail | pyrqa/result.py:127-139 | the buckets from the minimum start at `min - 1`, or at the end |
| Result.LinesFrom | pyrqa/result.py:127-132 | the number of lines of at least `min` points, the sum of the buckets from `min - 1`; constrained by `MinimumOne`, `RaisingTheMinimum` and `LinesUpToTheLongest` |
| Result.PointsFrom | pyrqa/result.py:134-139 | the points on the lines of bucket `i` onwards, `(j + 1) * h[j]` summed; constrained by `PointsAtLeast`, `PointsFromStart` and `PointsMonotone` |
| Result.LinePointsFrom | pyrqa/result.py:134-139 | the points on lines of at least `min` points; constrained by `LinePointsAtLeast` and `RaisingTheMinimum` |
| Result.LongestLine | pyrqa/result.py:141-148 | `None` exactly when every bucket is zero; otherwise the longest line has a nonzero bucket and every longer bucket is zero |
| Result.PointsAtLeast | pyrqa/result.py:134-139 | the lines from bucket `i` cover at least `i + 1` points each |
| Result.LinePointsAtLeast | pyrqa/result.py:134-139 | the line points are at least `min` times the number of lines |
| Result.PointsFromStart | pyrqa/result.py:134-139 | the points from bucket 0 are the weighted sum of the distribution |
| Result.MinimumOne | pyrqa/result.py:127-139 | with a minimum of one, the lines are all lines and the points are all points |
| Result.SumSuffixMonotone | pyrqa/result.py:127-132 | fewer buckets hold no more lines |
| Result.PointsMonotone | pyrqa/result.py:134-139 | fewer buckets cover no more points |
| Result.RaisingTheMinimum | pyrqa/result.py:127-139 | raising the minimum length never raises the number of lines or of their points |
| Result.SumOfZeros | pyrqa/result.py:127-132 | zero buckets hold no lines |
| Result.SumAtLeastElement | pyrqa/result.py:127-132 | the lines are at least those of any one bucket |
| Result.LinesUpToTheLongest | pyrqa/result.py:127-148 | there are lines of at least `min` cells exactly when the longest line has at least `min` cells |
| Result.LongestOfHistogram | pyrqa/result.py:141-148 | the longest line of a distribution of lines is one of them and the longest of them; there is none exactly when there are no lines |
| Result.VerticalLinePointsAreRecurrencePoints | pyrqa/result.py:172-177 | with a minimum of one, the vertical line points are the recurrence points |
| Result.IndicesByNumberOfLocalRecurrencePoints | pyrqa/result.py:358-366 | exactly the indices with at most `threshold` local recurrence points, in increasing order |
| Result.RecurrenceMatrixReverse | pyrqa/result.py:30-33 | row `i` of the reversed matrix is row `n - 1 - i` |
| Result.ReverseTwice | pyrqa/result.py:30-33 | reversing twice gives the matrix back |
| Result.RqaResult.constructor | pyrqa/result.py:60-92 | a result holds its distributions and starts with every count zero |
| Result.RqaResult.New | pyrqa/result.py:60-100 | creation succeeds exactly when every minimum length is positive, and then every count is up to date |
| Result.RqaResult.SetNumberOfRecurrencePoints | pyrqa/result.py:123-125 | the number of recurrence points is the sum of the local ones; nothing else changes |
| Result.RqaResult.SetNumberOfLines | pyrqa/result.py:127-132 | the number of lines of at least the minimum length; raises, changing nothing, when the minimum is not positive |
| Result.RqaResult.SetNumberOfLinesPoints | pyrqa/result.py:134-139 | the points on lines of at least the minimum length; raises, changing nothing, when the minimum is not positive |
| Result.RqaResult.SetLongestLine | pyrqa/result.py:141-148 | the longest line, whatever the minimum, kept when there are no lines; raises when the minimum is not positive |
| Result.Measured | pyrqa/result.py:102-148 | the measures of one kind of lines for a positive minimum: the line points are at least the minimum times the lines, a longest line exists when there are lines and has a nonzero bucket of at least the minimum, and an all-zero distribution keeps the previous longest line |
| Result.RqaResult.UpdateLines | pyrqa/result.py:102-121 | the three measures of one kind of lines, or an error before anything changes; the other kinds are untouched |
| Result.RqaResult.Update | pyrqa/result.py:94-100 | all counts up to date, diagonal, vertical, white vertical in turn; the first minimum that is not positive stops the update |
| Result.RqaResult.SetMinLineLength | pyrqa/result.py:237-265 | the setter changes one minimum and recomputes only that kind's measures; the other kinds are untouched |

## Left out

- The OpenCL host code and kernels are not part of this model. The kernel
  that computes one tile of the plot is `TileData`, and the plot driver's
  loop over the queues is `InsertSubMatrices`, one device at a time; the
  threads of several devices are not modelled. The quantification driver,
  which sums the per-device distributions, is not modelled either; the facts
  it relies on are proved: `GridCoversMatrix`, the carryover slices and
  `PostProcessLengthCarryovers`.
- RecurrenceAnalysis.SubMatrices.constructor: the edge length is a positive
  natural. At 0 the source raises `ZeroDivisionError` when it divides by the
  edge length (`pyrqa/recurrence_analysis.py:153`). A negative edge length
  gives no partition and an empty schedule. Neither case is modelled.
- RecurrenceAnalysis.SubMatrices.Reset: requires the positive edge length
  the constructor establishes; the zero and negative cases above are not
  modelled.
- RecurrenceAnalysis.SubMatrices.CreateSubMatrices: requires a positive edge
  length; the zero and negative cases above are not modelled.
- RecurrenceAnalysis.RecurrencePlotSubMatrices.constructor: requires a
  positive edge length, as `SubMatrices.constructor` does.
- RecurrenceAnalysis.Carryover.constructor: without symmetry it requires
  `n >= 1`. At `n = 0` the source's `np.zeros(2 * n - 1)` raises `ValueError`
  (`pyrqa/recurrence_analysis.py:335-336`); that error is not modelled.
- RecurrenceAnalysis.Carryover.Reset: requires the same `n >= 1` without
  symmetry, which the constructor establishes.
- RecurrenceAnalysis.RqaSubMatricesCarryover.constructor: requires a
  positive edge length and, without symmetry, `n >= 1`, for the reasons
  given for `SubMatrices.constructor` and `Carryover.constructor`.
- RqaBaseline.Baseline.constructor: requires `n >= 1`. At `n = 0` the
  source's `np.zeros(2 * n - 1)` raises `ValueError`
  (`pyrqa/rqa/fixed_radius/plain/baseline.py:33-35`); that error is not
  modelled.
- RqaBaseline.Baseline.Reset: requires `n >= 1`, for the same reason.
- RqaBaseline.Baseline.constructor: the Theiler corrector is a natural. A
  negative corrector is not representable; in the source it acts as 0,
  since `fabs(index_y - index_x) >= theiler_corrector` then always holds
  (`pyrqa/rqa/fixed_radius/plain/baseline.py:62-63`).
- The number of vectors `n` is a natural throughout. A series shorter than
  the embedding offset gives a negative `number_of_vectors`, on which the
  source's `np.zeros` raises `ValueError`; that error is not modelled.
- Distances, metrics and float32 arithmetic are abstracted. The recurrence
  relation is the parameter `recurrent`, and radii and distances are `real`.
- The float measures of a result are not modelled: entropies, rates,
  determinism, laminarity, averages and ratios, and
  `indices_by_local_recurrence_rate`. They are float arithmetic over the
  integer counts that are modelled.
- Persisting distributions, `__str__`, the runtimes, the command line, the
  configuration file parser and the image generator are file I/O or output.
- `file_as_string`, and the opening and reading of the file in
  `file_as_float_array`, are I/O. The model starts from the file's lines.
- The messages printed for unprocessable lines are left out. The number of
  such lines is returned instead.
- `np.float32` parsing is the parameter `parse`. A failed parse is an error
  result.
- FileReader.Split: the delimiter is a single character. Python also
  accepts longer delimiters.
- Numpy's unsigned 32- and 64-bit counters are unbounded naturals. The one
  place where a wrap matters, the decrement of the last diagonal bucket, is
  written out by `DecrementUInt64`.
- RecurrenceAnalysis.ExtendedDistribution: with symmetry and a Theiler
  corrector of 0 it requires a non-empty distribution. At `n = 0` the
  source's decrement of the last bucket raises `IndexError`
  (`pyrqa/recurrence_analysis.py:86-87`); that error is not modelled.
- RecurrenceAnalysis.Rqa.ExtentDiagonalFrequencyDistribution: requires the
  same non-empty distribution, for the same `IndexError` at `n = 0`.
- RecurrenceAnalysis.ExtendedDistribution: the doubling is unbounded. A
  bucket above `2^63` would wrap in the source.
- The settings object is shared between the analysis and its results. Here
  a result holds it as a value, so a change through a setter is not seen by
  other holders.
- Result.RecurrenceMatrixReverse: the source returns a view that shares
  the rows. The model returns a new sequence.
- Result.IndicesByNumberOfLocalRecurrencePoints: the threshold is an
  integer, while the source accepts any number comparable with the counts.
- Result.RqaResult.New: the source's constructor raises. Here the error is
  a null result with a `RuntimeError` status.
- `get_vectors_x`, `get_vectors_y`, their 2d and time-series variants, and
  `process_sub_matrix` only forward to the settings, or are abstract. They
  are covered by `Settings` and `ColumnRange`.
- RqaBaseline.Baseline.Run: it does not build the `RQAResult` it returns
  in the source. `Result.RqaResult.New` builds one from the same arrays.
- RqaBaseline.Baseline.Run: requires `n >= 1`, as the constructor does; at
  `n = 0` the source raises in `reset`.
- Processing orders, computations and abstract classes are folded into
  datatypes and parameters.
