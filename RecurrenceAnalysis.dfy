/** The shared state of a recurrence analysis: the partition of the global
    recurrence matrix into sub matrices and their scheduling into execution
    levels, the global arrays of the quantification analysis, the carryover
    buffers that link neighbouring sub matrices, and the host-side
    post-processing of those buffers. */
module RecurrenceAnalysis {
  import opened Runs

  /** The order in which sub matrices are processed. */
  datatype ProcessingOrder = Bulk | Diagonal | Vertical

  /** A rectangular tile of the global recurrence matrix: columns
      `startX .. startX + dimX - 1` and rows `startY .. startY + dimY - 1`. */
  datatype SubMatrix = SubMatrix(
    partitionIndexX: nat,
    partitionIndexY: nat,
    dimX: nat,
    startX: nat,
    dimY: nat,
    startY: nat)

  /** The largest edge length of a sub matrix, `2^16 - 1`. */
  const MaxEdgeLength: nat := 65535

  /** The edge length after clamping to `MaxEdgeLength`. */
  function ClampEdgeLength(edgeLength: nat): (e: nat)
    ensures e <= MaxEdgeLength && e <= edgeLength
    ensures edgeLength <= MaxEdgeLength ==> e == edgeLength
    ensures edgeLength > 0 ==> e > 0
  {
    if edgeLength > MaxEdgeLength then MaxEdgeLength else edgeLength
  }

  /** `ceil(a / b)` for natural numbers. */
  function CeilDiv(a: nat, b: nat): nat
    requires b > 0
  {
    (a + b - 1) / b
  }

  /** The number of partitions along each axis of an `n x n` matrix. */
  function NumberOfPartitions(n: nat, edgeLength: nat): nat
    requires edgeLength > 0
  {
    CeilDiv(n, edgeLength)
  }

  /** The first vector index of partition `i`. */
  function PartitionStart(edgeLength: nat, i: nat): nat
  {
    i * edgeLength
  }

  /** The number of vectors of partition `i`: the last partition takes what
      remains of the `n` vectors, every other one `edgeLength`. */
  function PartitionDim(n: nat, edgeLength: nat, i: nat): int
    requires edgeLength > 0
  {
    if i == NumberOfPartitions(n, edgeLength) - 1 then n - i * edgeLength else edgeLength
  }

  lemma CeilDivBounds(a: nat, b: nat)
    requires b > 0
    ensures CeilDiv(a, b) * b >= a
    ensures a > 0 ==> (CeilDiv(a, b) - 1) * b < a
    ensures a == 0 ==> CeilDiv(a, b) == 0
  {
    var q, r := (a + b - 1) / b, (a + b - 1) % b;
    assert a + b - 1 == q * b + r;
    assert (q - 1) * b == q * b - b;
  }

  lemma MulMonotone(i: nat, j: nat, e: nat)
    requires i <= j
    ensures i * e <= j * e
  {
    assert j * e == i * e + (j - i) * e;
  }

  /** The partitions of `0 .. n - 1` have between one and `edgeLength`
      vectors each, and each one starts where the previous one ends. */
  lemma PartitionBounds(n: nat, edgeLength: nat, i: nat)
    requires edgeLength > 0 && i < NumberOfPartitions(n, edgeLength)
    ensures 1 <= PartitionDim(n, edgeLength, i) <= edgeLength
    ensures PartitionStart(edgeLength, i) + PartitionDim(n, edgeLength, i) <= n
    ensures i + 1 < NumberOfPartitions(n, edgeLength) ==>
      PartitionStart(edgeLength, i) + PartitionDim(n, edgeLength, i) == PartitionStart(edgeLength, i + 1)
    ensures i + 1 == NumberOfPartitions(n, edgeLength) ==>
      PartitionStart(edgeLength, i) + PartitionDim(n, edgeLength, i) == n
  {
    var p := NumberOfPartitions(n, edgeLength);
    CeilDivBounds(n, edgeLength);
    assert (i + 1) * edgeLength == i * edgeLength + edgeLength;
    if i + 1 < p {
      MulMonotone(i + 1, p - 1, edgeLength);
    } else {
      assert p * edgeLength == i * edgeLength + edgeLength;
    }
  }

  /** Partitions are ordered: partition `i` ends no later than partition `j`
      starts, for `i < j`. */
  lemma PartitionsOrdered(n: nat, edgeLength: nat, i: nat, j: nat)
    requires edgeLength > 0 && i < j < NumberOfPartitions(n, edgeLength)
    ensures PartitionStart(edgeLength, i) + PartitionDim(n, edgeLength, i) <= PartitionStart(edgeLength, j)
  {
    PartitionBounds(n, edgeLength, i);
    MulMonotone(i + 1, j, edgeLength);
  }

  /** Every vector index lies in exactly one partition. */
  lemma PartitionOf(n: nat, edgeLength: nat, v: nat) returns (i: nat)
    requires edgeLength > 0 && v < n
    ensures i < NumberOfPartitions(n, edgeLength)
    ensures PartitionStart(edgeLength, i) <= v < PartitionStart(edgeLength, i) + PartitionDim(n, edgeLength, i)
    ensures forall j | 0 <= j < NumberOfPartitions(n, edgeLength)
              && PartitionStart(edgeLength, j) <= v < PartitionStart(edgeLength, j) + PartitionDim(n, edgeLength, j)
              :: j == i
  {
    var p := NumberOfPartitions(n, edgeLength);
    CeilDivBounds(n, edgeLength);
    i := v / edgeLength;
    assert i * edgeLength <= v < i * edgeLength + edgeLength;
    if i >= p {
      MulMonotone(p, i, edgeLength);
    }
    PartitionBounds(n, edgeLength, i);
    forall j | 0 <= j < p && PartitionStart(edgeLength, j) <= v < PartitionStart(edgeLength, j) + PartitionDim(n, edgeLength, j)
      ensures j == i
    {
      if j < i {
        PartitionsOrdered(n, edgeLength, j, i);
      } else if i < j {
        PartitionsOrdered(n, edgeLength, i, j);
      }
    }
  }

  // ---------------------------------------------------------------------------
  // The grid of sub matrices and its execution levels.

  /** The sub matrix at partition indices `(px, py)`. */
  function GridTile(n: nat, edgeLength: nat, px: nat, py: nat): (sm: SubMatrix)
    requires edgeLength > 0 && px < NumberOfPartitions(n, edgeLength) && py < NumberOfPartitions(n, edgeLength)
    ensures sm.partitionIndexX == px && sm.partitionIndexY == py
    ensures 1 <= sm.dimX <= edgeLength && sm.startX + sm.dimX <= n
    ensures 1 <= sm.dimY <= edgeLength && sm.startY + sm.dimY <= n
  {
    PartitionBounds(n, edgeLength, px);
    PartitionBounds(n, edgeLength, py);
    SubMatrix(px, py,
              PartitionDim(n, edgeLength, px), PartitionStart(edgeLength, px),
              PartitionDim(n, edgeLength, py), PartitionStart(edgeLength, py))
  }

  /** `sm` is one of the sub matrices of the partitioned `n x n` matrix. */
  ghost predicate IsGridTile(n: nat, edgeLength: nat, sm: SubMatrix)
  {
    && edgeLength > 0
    && sm.partitionIndexX < NumberOfPartitions(n, edgeLength)
    && sm.partitionIndexY < NumberOfPartitions(n, edgeLength)
    && sm == GridTile(n, edgeLength, sm.partitionIndexX, sm.partitionIndexY)
  }

  /** The execution level (queue) of the sub matrix at `(px, py)`: sub
      matrices of one level may be processed at the same time, levels one
      after the other. */
  function QueueIndex(order: ProcessingOrder, px: nat, py: nat): nat
  {
    match order
    case Diagonal => px + py
    case Vertical => py
    case Bulk => 0
  }

  /** The number of levels a grid of `p x p` sub matrices needs. */
  function NumberOfLevels(order: ProcessingOrder, p: nat): nat
  {
    if p == 0 then 0
    else match order
      case Diagonal => 2 * p - 1
      case Vertical => p
      case Bulk => 1
  }

  /** `(a, b)` comes before `(c, d)` in the order in which the grid is
      enumerated: `px` in the outer loop, `py` in the inner one. */
  predicate Before(a: nat, b: nat, c: nat, d: nat)
  {
    a < c || (a == c && b < d)
  }

  /** The queues hold exactly the sub matrices of the grid, each in the queue
      of its level, in the order of enumeration. */
  ghost predicate IsSchedule(n: nat, edgeLength: nat, order: ProcessingOrder, queues: seq<seq<SubMatrix>>)
    requires edgeLength > 0
  {
    var p := NumberOfPartitions(n, edgeLength);
    && |queues| == NumberOfLevels(order, p)
    && (forall q, j | 0 <= q < |queues| && 0 <= j < |queues[q]| ::
          IsGridTile(n, edgeLength, queues[q][j])
          && QueueIndex(order, queues[q][j].partitionIndexX, queues[q][j].partitionIndexY) == q)
    && (forall px, py | 0 <= px < p && 0 <= py < p ::
          QueueIndex(order, px, py) < |queues| && GridTile(n, edgeLength, px, py) in queues[QueueIndex(order, px, py)])
    && (forall q, j, k | 0 <= q < |queues| && 0 <= j < k < |queues[q]| ::
          Before(queues[q][j].partitionIndexX, queues[q][j].partitionIndexY,
                 queues[q][k].partitionIndexX, queues[q][k].partitionIndexY))
  }

  /** Every level is reached by some sub matrix of the grid. */
  lemma LevelInhabited(order: ProcessingOrder, p: nat, q: nat) returns (px: nat, py: nat)
    requires q < NumberOfLevels(order, p)
    ensures px < p && py < p && QueueIndex(order, px, py) == q
  {
    match order
    case Diagonal =>
      px := if q < p then q else p - 1;
      py := q - px;
    case Vertical =>
      px, py := 0, q;
    case Bulk =>
      px, py := 0, 0;
  }

  /** Every sub matrix of the grid has a level below `NumberOfLevels`. */
  lemma LevelBounded(order: ProcessingOrder, p: nat, px: nat, py: nat)
    requires px < p && py < p
    ensures QueueIndex(order, px, py) < NumberOfLevels(order, p)
  {
  }

  /** Within one level of the diagonal or the vertical order no two sub
      matrices share a column partition; within one level of the diagonal
      order no two share a row partition either. */
  lemma LevelSharesNoPartition(order: ProcessingOrder, a: SubMatrix, b: SubMatrix)
    requires order != Bulk
    requires QueueIndex(order, a.partitionIndexX, a.partitionIndexY) == QueueIndex(order, b.partitionIndexX, b.partitionIndexY)
    requires (a.partitionIndexX, a.partitionIndexY) != (b.partitionIndexX, b.partitionIndexY)
    ensures a.partitionIndexX != b.partitionIndexX
    ensures order == Diagonal ==> a.partitionIndexY != b.partitionIndexY
  {
  }

  /** The rows of one column partition are met in successive levels: the
      sub matrix below another one of the same column runs in a later level. */
  lemma ColumnLevelsIncrease(order: ProcessingOrder, px: nat, py: nat, py': nat)
    requires order != Bulk && py < py'
    ensures QueueIndex(order, px, py) < QueueIndex(order, px, py')
  {
  }

  class SubMatrices {
    /** The number of vectors `n` of the `n x n` recurrence matrix. */
    const n: nat
    const processingOrder: ProcessingOrder
    var edgeLength: nat
    var subMatrixQueues: seq<seq<SubMatrix>>

    ghost predicate Scheduled()
      reads this
    {
      0 < edgeLength <= MaxEdgeLength && IsSchedule(n, edgeLength, processingOrder, subMatrixQueues)
    }

    constructor (n: nat, edgeLength: nat, processingOrder: ProcessingOrder)
      requires edgeLength > 0
      ensures this.n == n && this.processingOrder == processingOrder
      ensures this.edgeLength == ClampEdgeLength(edgeLength)
      ensures Scheduled()
    {
      this.n := n;
      this.processingOrder := processingOrder;
      this.edgeLength := edgeLength;
      new;
      CreateSubMatrices();
    }

    method Reset()
      requires edgeLength > 0
      modifies this
      ensures edgeLength == ClampEdgeLength(old(edgeLength))
      ensures Scheduled()
    {
      CreateSubMatrices();
    }

    /** Clamps the edge length, partitions the matrix and puts every sub
        matrix into the queue of its level. */
    method CreateSubMatrices()
      requires edgeLength > 0
      modifies this
      ensures edgeLength == ClampEdgeLength(old(edgeLength))
      ensures Scheduled()
    {
      if edgeLength > MaxEdgeLength {
        edgeLength := MaxEdgeLength;
      }
      var e := edgeLength;
      var p := NumberOfPartitions(n, e);
      subMatrixQueues := [];
      for px := 0 to p
        invariant edgeLength == e
        invariant ScheduleProgress(n, e, processingOrder, subMatrixQueues, px, 0)
      {
        for py := 0 to p
          invariant edgeLength == e
          invariant ScheduleProgress(n, e, processingOrder, subMatrixQueues, px, py)
        {
          EnqueueSubMatrix(px, py);
        }
        ScheduleRowDone(n, e, processingOrder, subMatrixQueues, px);
      }
      ScheduleDone(n, e, processingOrder, subMatrixQueues);
    }

    /** Creates sub matrix `(px, py)` of the grid, the last partition of a row
        or column taking the remaining vectors, and appends it to the queue of
        its level, opening that queue if it is the next one. */
    method EnqueueSubMatrix(px: nat, py: nat)
      requires edgeLength > 0 && px < NumberOfPartitions(n, edgeLength) && py < NumberOfPartitions(n, edgeLength)
      requires ScheduleProgress(n, edgeLength, processingOrder, subMatrixQueues, px, py)
      modifies this
      ensures edgeLength == old(edgeLength)
      ensures ScheduleProgress(n, edgeLength, processingOrder, subMatrixQueues, px, py + 1)
    {
      var e := edgeLength;
      var p := NumberOfPartitions(n, e);
      var dimX: int, startX: int, dimY: int, startY: int;
      if px == p - 1 {
        dimX := n - px * e;
        startX := px * e;
      } else {
        dimX := e;
        startX := px * dimX;
      }
      if py == p - 1 {
        dimY := n - py * e;
        startY := py * e;
      } else {
        dimY := e;
        startY := py * dimY;
      }
      assert dimX == PartitionDim(n, e, px) && startX == PartitionStart(e, px);
      assert dimY == PartitionDim(n, e, py) && startY == PartitionStart(e, py);
      PartitionBounds(n, e, px);
      PartitionBounds(n, e, py);
      var sm := SubMatrix(px, py, dimX, startX, dimY, startY);
      assert sm == GridTile(n, e, px, py);
      var q := QueueIndex(processingOrder, px, py);
      ghost var before := subMatrixQueues;
      QueueReachable(n, e, processingOrder, subMatrixQueues, px, py);
      if |subMatrixQueues| <= q {
        subMatrixQueues := subMatrixQueues + [[]];
      }
      subMatrixQueues := subMatrixQueues[q := subMatrixQueues[q] + [sm]];
      EnqueueKeepsProgress(n, e, processingOrder, before, subMatrixQueues, px, py);
    }
  }

  /** The loop invariant of `CreateSubMatrices` once the sub matrices before
      `(px, py)` have been enqueued. */
  ghost predicate ScheduleProgress(n: nat, e: nat, order: ProcessingOrder, queues: seq<seq<SubMatrix>>, px: nat, py: nat)
  {
    var p := if e > 0 then NumberOfPartitions(n, e) else 0;
    && e > 0
    && (forall q | 0 <= q < |queues| :: |queues[q]| > 0)
    && (forall q, j | 0 <= q < |queues| && 0 <= j < |queues[q]| ::
          IsGridTile(n, e, queues[q][j])
          && QueueIndex(order, queues[q][j].partitionIndexX, queues[q][j].partitionIndexY) == q
          && Before(queues[q][j].partitionIndexX, queues[q][j].partitionIndexY, px, py))
    && (forall a, b | 0 <= a < p && 0 <= b < p && Before(a, b, px, py) ::
          QueueIndex(order, a, b) < |queues| && GridTile(n, e, a, b) in queues[QueueIndex(order, a, b)])
    && (forall q, j, k | 0 <= q < |queues| && 0 <= j < k < |queues[q]| ::
          Before(queues[q][j].partitionIndexX, queues[q][j].partitionIndexY,
                 queues[q][k].partitionIndexX, queues[q][k].partitionIndexY))
  }

  /** The queue of the next sub matrix exists already or is the next one to
      be appended: a sub matrix one level lower has been enqueued before. */
  lemma QueueReachable(n: nat, e: nat, order: ProcessingOrder, queues: seq<seq<SubMatrix>>, px: nat, py: nat)
    requires e > 0 && px < NumberOfPartitions(n, e) && py < NumberOfPartitions(n, e)
    requires ScheduleProgress(n, e, order, queues, px, py)
    ensures QueueIndex(order, px, py) <= |queues|
  {
    var q := QueueIndex(order, px, py);
    if q > 0 {
      if py > 0 {
        assert Before(px, py - 1, px, py);
        assert QueueIndex(order, px, py - 1) == q - 1;
      } else {
        assert order == Diagonal;
        assert Before(px - 1, py, px, py);
        assert QueueIndex(order, px - 1, py) == q - 1;
      }
    }
  }

  /** Appending sub matrix `(px, py)` to the queue of its level keeps the
      invariant of `CreateSubMatrices`. */
  lemma EnqueueKeepsProgress(n: nat, e: nat, order: ProcessingOrder,
                             queues: seq<seq<SubMatrix>>, queues': seq<seq<SubMatrix>>, px: nat, py: nat)
    requires e > 0 && px < NumberOfPartitions(n, e) && py < NumberOfPartitions(n, e)
    requires ScheduleProgress(n, e, order, queues, px, py)
    requires QueueIndex(order, px, py) <= |queues|
    requires var q := QueueIndex(order, px, py);
      var grown := if |queues| <= q then queues + [[]] else queues;
      queues' == grown[q := grown[q] + [GridTile(n, e, px, py)]]
    ensures ScheduleProgress(n, e, order, queues', px, py + 1)
  {
    EnqueuedQueues(n, e, order, queues, queues', px, py);
    EnqueuedCoverage(n, e, order, queues, queues', px, py);
  }

  /** After the append every queue is non-empty, holds sub matrices of its
      level enumerated up to `(px, py)`, in the order of enumeration. */
  lemma EnqueuedQueues(n: nat, e: nat, order: ProcessingOrder,
                       queues: seq<seq<SubMatrix>>, queues': seq<seq<SubMatrix>>, px: nat, py: nat)
    requires e > 0 && px < NumberOfPartitions(n, e) && py < NumberOfPartitions(n, e)
    requires ScheduleProgress(n, e, order, queues, px, py)
    requires QueueIndex(order, px, py) <= |queues|
    requires var q := QueueIndex(order, px, py);
      var grown := if |queues| <= q then queues + [[]] else queues;
      queues' == grown[q := grown[q] + [GridTile(n, e, px, py)]]
    ensures forall q | 0 <= q < |queues'| :: |queues'[q]| > 0
    ensures forall q, j | 0 <= q < |queues'| && 0 <= j < |queues'[q]| ::
      IsGridTile(n, e, queues'[q][j])
      && QueueIndex(order, queues'[q][j].partitionIndexX, queues'[q][j].partitionIndexY) == q
      && Before(queues'[q][j].partitionIndexX, queues'[q][j].partitionIndexY, px, py + 1)
    ensures forall q, j, k | 0 <= q < |queues'| && 0 <= j < k < |queues'[q]| ::
      Before(queues'[q][j].partitionIndexX, queues'[q][j].partitionIndexY,
             queues'[q][k].partitionIndexX, queues'[q][k].partitionIndexY)
  {
    assert IsGridTile(n, e, GridTile(n, e, px, py));
  }

  /** After the append every sub matrix up to `(px, py)` is in the queue of
      its level. */
  lemma EnqueuedCoverage(n: nat, e: nat, order: ProcessingOrder,
                         queues: seq<seq<SubMatrix>>, queues': seq<seq<SubMatrix>>, px: nat, py: nat)
    requires e > 0 && px < NumberOfPartitions(n, e) && py < NumberOfPartitions(n, e)
    requires ScheduleProgress(n, e, order, queues, px, py)
    requires QueueIndex(order, px, py) <= |queues|
    requires var q := QueueIndex(order, px, py);
      var grown := if |queues| <= q then queues + [[]] else queues;
      queues' == grown[q := grown[q] + [GridTile(n, e, px, py)]]
    ensures forall a, b | 0 <= a < NumberOfPartitions(n, e) && 0 <= b < NumberOfPartitions(n, e) && Before(a, b, px, py + 1) ::
      QueueIndex(order, a, b) < |queues'| && GridTile(n, e, a, b) in queues'[QueueIndex(order, a, b)]
  {
    var q := QueueIndex(order, px, py);
    var sm := GridTile(n, e, px, py);
    forall a, b | 0 <= a < NumberOfPartitions(n, e) && 0 <= b < NumberOfPartitions(n, e) && Before(a, b, px, py + 1)
      ensures QueueIndex(order, a, b) < |queues'| && GridTile(n, e, a, b) in queues'[QueueIndex(order, a, b)]
    {
      if Before(a, b, px, py) {
        var qa := QueueIndex(order, a, b);
        assert GridTile(n, e, a, b) in queues[qa];
        assert queues[qa] <= queues'[qa];
      } else {
        assert a == px && b == py;
        assert queues'[q][|queues'[q]| - 1] == sm;
      }
    }
  }

  lemma ScheduleRowDone(n: nat, e: nat, order: ProcessingOrder, queues: seq<seq<SubMatrix>>, px: nat)
    requires e > 0
    requires ScheduleProgress(n, e, order, queues, px, NumberOfPartitions(n, e))
    ensures ScheduleProgress(n, e, order, queues, px + 1, 0)
  {
    var p := NumberOfPartitions(n, e);
    forall q, j | 0 <= q < |queues| && 0 <= j < |queues[q]|
      ensures Before(queues[q][j].partitionIndexX, queues[q][j].partitionIndexY, px + 1, 0)
    {
      assert IsGridTile(n, e, queues[q][j]);
    }
  }

  lemma ScheduleDone(n: nat, e: nat, order: ProcessingOrder, queues: seq<seq<SubMatrix>>)
    requires e > 0
    requires ScheduleProgress(n, e, order, queues, NumberOfPartitions(n, e), 0)
    ensures IsSchedule(n, e, order, queues)
  {
    var p := NumberOfPartitions(n, e);
    var levels := NumberOfLevels(order, p);
    if |queues| > 0 {
      // the last queue holds a sub matrix of the grid, whose level is below the number of levels
      var sm := queues[|queues| - 1][0];
      assert IsGridTile(n, e, sm);
      LevelBounded(order, p, sm.partitionIndexX, sm.partitionIndexY);
    }
    if levels > 0 {
      // the last level holds a sub matrix of the grid, which has been enqueued
      var a, b := LevelInhabited(order, p, levels - 1);
      assert Before(a, b, p, 0);
    }
  }

  // ---------------------------------------------------------------------------
  // The slices of the global arrays that belong to one sub matrix.

  /** The slice `[start, end)` of the recurrence points and of the four
      vertical carryover arrays that belongs to `sm`: one entry per column. */
  function ColumnRange(sm: SubMatrix): (r: (int, int))
    ensures r.1 - r.0 == sm.dimX
    ensures forall x, y | InTile(sm, x, y) :: r.0 <= x < r.1
  {
    (sm.startX, sm.startX + sm.dimX)
  }

  /** The slice `[start, end)` of the two diagonal carryover arrays that
      belongs to `sm`. With a symmetric matrix the arrays have `n` entries,
      one per distance from the main diagonal; otherwise `2n - 1`, one per
      diagonal, diagonal `n - 1 + x - y` holding the cells `(x, y)`. */
  function DiagonalRange(n: nat, isMatrixSymmetric: bool, sm: SubMatrix): (r: (int, int))
    ensures isMatrixSymmetric ==> r.1 - r.0 == sm.dimX
    ensures !isMatrixSymmetric ==> forall x, y | InTile(sm, x, y) :: r.0 <= DiagonalIndex(n, x, y) < r.1
  {
    if isMatrixSymmetric then
      var start := if sm.partitionIndexX < sm.partitionIndexY then sm.startY - (sm.startX + sm.dimX)
                   else sm.startX - sm.startY;
      (start, start + sm.dimX)
    else
      var start := (n - 1) + (sm.startX - sm.dimY + 1) - sm.startY;
      (start, start + (sm.dimX + sm.dimY - 1))
  }

  /** 1 for a sub matrix whose cells all lie above the main diagonal
      (`x < y`), 0 otherwise. */
  function DiagonalOffset(sm: SubMatrix): nat
  {
    if sm.partitionIndexX < sm.partitionIndexY then 1 else 0
  }

  /** `(x, y)` is a cell of `sm`. */
  predicate InTile(sm: SubMatrix, x: int, y: int)
  {
    sm.startX <= x < sm.startX + sm.dimX && sm.startY <= y < sm.startY + sm.dimY
  }

  /** The column slice of a sub matrix of the grid lies in `[0, n)` and has
      one entry per column of the sub matrix. */
  lemma ColumnRangeWithin(n: nat, edgeLength: nat, sm: SubMatrix)
    requires IsGridTile(n, edgeLength, sm)
    ensures 0 <= ColumnRange(sm).0 < ColumnRange(sm).1 <= n
    ensures ColumnRange(sm).1 - ColumnRange(sm).0 == sm.dimX
  {
    PartitionBounds(n, edgeLength, sm.partitionIndexX);
  }

  /** Sub matrices of different column partitions own disjoint column slices;
      with `LevelSharesNoPartition` the sub matrices of one level of the
      diagonal or the vertical order never touch the same carryover entry. */
  lemma ColumnRangesDisjoint(n: nat, edgeLength: nat, a: SubMatrix, b: SubMatrix)
    requires IsGridTile(n, edgeLength, a) && IsGridTile(n, edgeLength, b)
    requires a.partitionIndexX < b.partitionIndexX
    ensures ColumnRange(a).1 <= ColumnRange(b).0
  {
    PartitionsOrdered(n, edgeLength, a.partitionIndexX, b.partitionIndexX);
  }

  /** The index of the diagonal through `(x, y)` in the non-symmetric
      diagonal carryover arrays. */
  function DiagonalIndex(n: int, x: int, y: int): int
  {
    n - 1 + x - y
  }

  /** Diagonal `d` holds a cell of `sm`. */
  ghost predicate Crosses(n: nat, sm: SubMatrix, d: int)
  {
    exists x, y :: InTile(sm, x, y) && DiagonalIndex(n, x, y) == d
  }

  /** Without symmetry the diagonal slice of a sub matrix lies in
      `[0, 2n - 1)` and is exactly the set of diagonals that cross it: every
      cell's diagonal is in the slice, and every diagonal of the slice holds a
      cell of the sub matrix. */
  lemma DiagonalRangeIsCrossedDiagonals(n: nat, edgeLength: nat, sm: SubMatrix)
    requires IsGridTile(n, edgeLength, sm)
    ensures 0 <= DiagonalRange(n, false, sm).0 < DiagonalRange(n, false, sm).1 <= 2 * n - 1
    ensures forall x, y | InTile(sm, x, y) ::
      DiagonalRange(n, false, sm).0 <= DiagonalIndex(n, x, y) < DiagonalRange(n, false, sm).1
    ensures forall d | DiagonalRange(n, false, sm).0 <= d < DiagonalRange(n, false, sm).1 :: Crosses(n, sm, d)
  {
    PartitionBounds(n, edgeLength, sm.partitionIndexX);
    PartitionBounds(n, edgeLength, sm.partitionIndexY);
    var start := DiagonalRange(n, false, sm).0;
    var end := DiagonalRange(n, false, sm).1;
    forall d | start <= d < end ensures Crosses(n, sm, d) {
      var k := d - start;
      var x, y;
      if k < sm.dimY {
        x, y := sm.startX, sm.startY + sm.dimY - 1 - k;
      } else {
        x, y := sm.startX + k - (sm.dimY - 1), sm.startY;
      }
      assert InTile(sm, x, y) && DiagonalIndex(n, x, y) == d;
    }
  }

  /** Without symmetry the sub matrices of one level of the diagonal order
      own disjoint diagonal slices, so they may run in parallel. */
  lemma DiagonalRangesDisjoint(n: nat, edgeLength: nat, a: SubMatrix, b: SubMatrix)
    requires IsGridTile(n, edgeLength, a) && IsGridTile(n, edgeLength, b)
    requires QueueIndex(Diagonal, a.partitionIndexX, a.partitionIndexY)
          == QueueIndex(Diagonal, b.partitionIndexX, b.partitionIndexY)
    requires a.partitionIndexX < b.partitionIndexX
    ensures DiagonalRange(n, false, a).1 <= DiagonalRange(n, false, b).0
  {
    PartitionsOrdered(n, edgeLength, a.partitionIndexX, b.partitionIndexX);
    PartitionsOrdered(n, edgeLength, b.partitionIndexY, a.partitionIndexY);
  }

  /** With symmetry the diagonal slice of a sub matrix lies in `[0, n]`, and
      the offset is 1 exactly for the sub matrices above the main diagonal
      block, whose cells all have `x < y`; the others have no cell with
      `y > x` beyond their first row partition. */
  lemma SymmetricDiagonalRangeWithin(n: nat, edgeLength: nat, sm: SubMatrix)
    requires IsGridTile(n, edgeLength, sm)
    ensures var (start, end) := DiagonalRange(n, true, sm);
      0 <= start <= end <= n && end - start == sm.dimX
    ensures DiagonalOffset(sm) == 1 ==> forall x, y | InTile(sm, x, y) :: x < y
    ensures DiagonalOffset(sm) == 0 ==> sm.startY <= sm.startX
  {
    PartitionBounds(n, edgeLength, sm.partitionIndexX);
    PartitionBounds(n, edgeLength, sm.partitionIndexY);
    if sm.partitionIndexX < sm.partitionIndexY {
      PartitionsOrdered(n, edgeLength, sm.partitionIndexX, sm.partitionIndexY);
    } else if sm.partitionIndexY < sm.partitionIndexX {
      PartitionsOrdered(n, edgeLength, sm.partitionIndexY, sm.partitionIndexX);
    }
  }

  /** Every cell of the `n x n` matrix lies in exactly one sub matrix of the
      grid. */
  lemma GridCoversMatrix(n: nat, edgeLength: nat, x: nat, y: nat) returns (sm: SubMatrix)
    requires edgeLength > 0 && x < n && y < n
    ensures IsGridTile(n, edgeLength, sm) && InTile(sm, x, y)
    ensures forall t | IsGridTile(n, edgeLength, t) && InTile(t, x, y) :: t == sm
  {
    var px := PartitionOf(n, edgeLength, x);
    var py := PartitionOf(n, edgeLength, y);
    sm := GridTile(n, edgeLength, px, py);
  }

  // ---------------------------------------------------------------------------
  // Bit-packed sub matrices.

  /** The byte size and the number of elements of a sub matrix stored one bit
      per cell: each of the `dimX` columns takes `ceil(dimY / bits)` elements
      of `itemSize` bytes, `bits = 8 * itemSize`. */
  function BitMatrixSize(sm: SubMatrix, itemSize: nat): (int, int)
    requires itemSize > 0
  {
    var bitsPerElement := itemSize * 8;
    var numberOfElements := sm.dimX * CeilDiv(sm.dimY, bitsPerElement);
    (numberOfElements * itemSize, numberOfElements)
  }

  /** The bit matrix has room for every cell, and no column takes an element
      more than it needs. */
  lemma BitMatrixFits(sm: SubMatrix, itemSize: nat)
    requires itemSize > 0
    ensures var (size, elements) := BitMatrixSize(sm, itemSize);
      && elements * (8 * itemSize) >= sm.dimX * sm.dimY
      && size == elements * itemSize
      && (sm.dimY > 0 ==> (CeilDiv(sm.dimY, 8 * itemSize) - 1) * (8 * itemSize) < sm.dimY)
  {
    var bits := 8 * itemSize;
    var c := CeilDiv(sm.dimY, bits);
    CeilDivBounds(sm.dimY, bits);
    assert itemSize * 8 == bits;
    MulMonotone(sm.dimY, c * bits, sm.dimX);
    assert sm.dimX * c * bits == (c * bits) * sm.dimX;
  }

  // ---------------------------------------------------------------------------
  // The global arrays of the quantification analysis.

  /** `2^64`: the frequency distributions hold unsigned 64-bit counters. */
  const UInt64Modulus: nat := 0x1_0000_0000_0000_0000

  /** Subtracting one from an unsigned 64-bit counter, wrapping at zero. */
  function DecrementUInt64(v: nat): (r: nat)
    ensures (r + 1) % UInt64Modulus == v % UInt64Modulus
    ensures v < UInt64Modulus ==> r < UInt64Modulus
  {
    if v == 0 then UInt64Modulus - 1 else v - 1
  }

  /** The diagonal frequency distribution after the host-side extension: a
      symmetric computation visits one triangle only, so every bucket is
      doubled, and with no Theiler corrector the main diagonal, counted twice
      by the doubling, is removed once from the last bucket. */
  function ExtendedDistribution(h: seq<nat>, isMatrixSymmetric: bool, theilerCorrector: int): (r: seq<nat>)
    requires isMatrixSymmetric && theilerCorrector == 0 ==> |h| >= 1
    ensures |r| == |h|
    ensures !isMatrixSymmetric ==> r == h
    ensures isMatrixSymmetric ==> forall i | 0 <= i < |h| - 1 :: r[i] == 2 * h[i]
    ensures isMatrixSymmetric && |h| > 0 ==>
      r[|h| - 1] == if theilerCorrector == 0 then DecrementUInt64(2 * h[|h| - 1]) else 2 * h[|h| - 1]
  {
    if !isMatrixSymmetric then h
    else
      var doubled := seq(|h|, i requires 0 <= i < |h| => h[i] + h[i]);
      if theilerCorrector == 0 then doubled[|h| - 1 := DecrementUInt64(doubled[|h| - 1])] else doubled
  }

  /** Adds to bucket `len - 1` of `distribution` one for every entry equal to
      `len` in `lengths`; zero entries add nothing. */
  method FlushCarryover(lengths: array<nat>, distribution: array<nat>)
    requires lengths != distribution
    requires forall i | 0 <= i < lengths.Length :: lengths[i] <= distribution.Length
    modifies distribution
    ensures forall len | 1 <= len <= distribution.Length ::
      distribution[len - 1] == old(distribution[len - 1]) + multiset(lengths[..])[len]
    ensures WeightedSum(distribution[..]) == WeightedSum(old(distribution[..])) + Sum(lengths[..])
  {
    ghost var h := distribution[..];
    for i := 0 to lengths.Length
      invariant forall len | 1 <= len <= distribution.Length ::
        distribution[len - 1] == old(distribution[len - 1]) + multiset(lengths[..i])[len]
    {
      var lineLength := lengths[i];
      if lineLength > 0 {
        distribution[lineLength - 1] := distribution[lineLength - 1] + 1;
      }
      assert lengths[..i + 1] == lengths[..i] + [lengths[i]];
    }
    assert lengths[..lengths.Length] == lengths[..];
    WeightedSumOfFlush(h, lengths[..], distribution[..]);
  }

  /** The length of the white vertical line that ends each column, given the
      row index of the column's last recurrence point. */
  function TrailingWhiteLengths(n: nat, indices: seq<nat>): (r: seq<int>)
    ensures |r| == |indices|
    ensures forall j | 0 <= j < |indices| :: indices[j] + r[j] == n - 1
  {
    seq(|indices|, j requires 0 <= j < |indices| => (n as int) - indices[j] - 1)
  }

  class Rqa {
    /** The number of vectors `n`. */
    const n: nat
    const isMatrixSymmetric: bool
    const theilerCorrector: int
    /** Per column, the number of recurrence points. */
    var recurrencePoints: array<nat>
    /** Bucket `i`: the number of lines of length `i + 1`. */
    var diagonalFrequencyDistribution: array<nat>
    var verticalFrequencyDistribution: array<nat>
    var whiteVerticalFrequencyDistribution: array<nat>

    /** The four arrays have `n` entries, all zero, and are distinct. */
    ghost predicate Cleared()
      reads this, recurrencePoints, diagonalFrequencyDistribution,
            verticalFrequencyDistribution, whiteVerticalFrequencyDistribution
    {
      && recurrencePoints.Length == n
      && diagonalFrequencyDistribution.Length == n
      && verticalFrequencyDistribution.Length == n
      && whiteVerticalFrequencyDistribution.Length == n
      && (forall i | 0 <= i < n ::
            recurrencePoints[i] == 0 && diagonalFrequencyDistribution[i] == 0
            && verticalFrequencyDistribution[i] == 0 && whiteVerticalFrequencyDistribution[i] == 0)
      && recurrencePoints != diagonalFrequencyDistribution
      && recurrencePoints != verticalFrequencyDistribution
      && recurrencePoints != whiteVerticalFrequencyDistribution
      && diagonalFrequencyDistribution != verticalFrequencyDistribution
      && diagonalFrequencyDistribution != whiteVerticalFrequencyDistribution
      && verticalFrequencyDistribution != whiteVerticalFrequencyDistribution
    }

    constructor (n: nat, isMatrixSymmetric: bool, theilerCorrector: int)
      ensures this.n == n && this.isMatrixSymmetric == isMatrixSymmetric && this.theilerCorrector == theilerCorrector
      ensures Cleared()
      ensures fresh(recurrencePoints) && fresh(diagonalFrequencyDistribution)
      ensures fresh(verticalFrequencyDistribution) && fresh(whiteVerticalFrequencyDistribution)
    {
      this.n := n;
      this.isMatrixSymmetric := isMatrixSymmetric;
      this.theilerCorrector := theilerCorrector;
      recurrencePoints := new nat[n](_ => 0);
      diagonalFrequencyDistribution := new nat[n](_ => 0);
      verticalFrequencyDistribution := new nat[n](_ => 0);
      whiteVerticalFrequencyDistribution := new nat[n](_ => 0);
    }

    /** Replaces the four arrays by fresh zeroed ones. */
    method Reset()
      modifies this
      ensures Cleared()
      ensures fresh(recurrencePoints) && fresh(diagonalFrequencyDistribution)
      ensures fresh(verticalFrequencyDistribution) && fresh(whiteVerticalFrequencyDistribution)
    {
      recurrencePoints := new nat[n](_ => 0);
      diagonalFrequencyDistribution := new nat[n](_ => 0);
      verticalFrequencyDistribution := new nat[n](_ => 0);
      whiteVerticalFrequencyDistribution := new nat[n](_ => 0);
    }

    /** Extends the diagonal frequency distribution of a symmetric
        computation to the whole matrix. */
    method ExtentDiagonalFrequencyDistribution()
      requires isMatrixSymmetric && theilerCorrector == 0 ==> diagonalFrequencyDistribution.Length >= 1
      modifies diagonalFrequencyDistribution
      ensures diagonalFrequencyDistribution[..]
           == ExtendedDistribution(old(diagonalFrequencyDistribution[..]), isMatrixSymmetric, theilerCorrector)
    {
      var h := diagonalFrequencyDistribution;
      if isMatrixSymmetric {
        forall i | 0 <= i < h.Length {
          h[i] := h[i] + h[i];
        }
        if theilerCorrector == 0 {
          h[h.Length - 1] := DecrementUInt64(h[h.Length - 1]);
        }
      }
    }
  }

  class Carryover {
    const n: nat
    const isMatrixSymmetric: bool
    /** Per diagonal, the length of the line still in progress. */
    var diagonalLengthCarryover: array<nat>
    var diagonalIndexCarryover: array<nat>
    /** Per column, the length of the vertical line still in progress. */
    var verticalLengthCarryover: array<nat>
    var verticalIndexCarryover: array<nat>
    /** Per column, the length of the white vertical line still in progress. */
    var whiteVerticalLengthCarryover: array<nat>
    var whiteVerticalIndexCarryover: array<nat>

    /** The number of diagonal entries: one per distance from the main
        diagonal with a symmetric matrix, one per diagonal otherwise. */
    function DiagonalCount(): int
    {
      if isMatrixSymmetric then n else 2 * n - 1
    }

    /** The six arrays have their sizes and are all zero; the two vertical
        length carryovers are distinct arrays. */
    ghost predicate Cleared()
      reads this, diagonalLengthCarryover, diagonalIndexCarryover, verticalLengthCarryover,
            verticalIndexCarryover, whiteVerticalLengthCarryover, whiteVerticalIndexCarryover
    {
      && diagonalLengthCarryover.Length == DiagonalCount()
      && diagonalIndexCarryover.Length == DiagonalCount()
      && verticalLengthCarryover.Length == n && verticalIndexCarryover.Length == n
      && whiteVerticalLengthCarryover.Length == n && whiteVerticalIndexCarryover.Length == n
      && (forall d | 0 <= d < DiagonalCount() :: diagonalLengthCarryover[d] == 0 && diagonalIndexCarryover[d] == 0)
      && (forall i | 0 <= i < n ::
            verticalLengthCarryover[i] == 0 && verticalIndexCarryover[i] == 0
            && whiteVerticalLengthCarryover[i] == 0 && whiteVerticalIndexCarryover[i] == 0)
      && verticalLengthCarryover != whiteVerticalLengthCarryover
    }

    constructor (n: nat, isMatrixSymmetric: bool)
      requires isMatrixSymmetric || n >= 1
      ensures this.n == n && this.isMatrixSymmetric == isMatrixSymmetric
      ensures Cleared()
      ensures fresh(diagonalLengthCarryover) && fresh(diagonalIndexCarryover)
      ensures fresh(verticalLengthCarryover) && fresh(verticalIndexCarryover)
      ensures fresh(whiteVerticalLengthCarryover) && fresh(whiteVerticalIndexCarryover)
    {
      this.n := n;
      this.isMatrixSymmetric := isMatrixSymmetric;
      var size := if isMatrixSymmetric then n else 2 * n - 1;
      diagonalLengthCarryover := new nat[size](_ => 0);
      diagonalIndexCarryover := new nat[size](_ => 0);
      verticalLengthCarryover := new nat[n](_ => 0);
      verticalIndexCarryover := new nat[n](_ => 0);
      whiteVerticalLengthCarryover := new nat[n](_ => 0);
      whiteVerticalIndexCarryover := new nat[n](_ => 0);
    }

    /** Replaces the six arrays by fresh zeroed ones. */
    method Reset()
      requires isMatrixSymmetric || n >= 1
      modifies this
      ensures Cleared()
      ensures fresh(diagonalLengthCarryover) && fresh(diagonalIndexCarryover)
      ensures fresh(verticalLengthCarryover) && fresh(verticalIndexCarryover)
      ensures fresh(whiteVerticalLengthCarryover) && fresh(whiteVerticalIndexCarryover)
    {
      var size := if isMatrixSymmetric then n else 2 * n - 1;
      diagonalLengthCarryover := new nat[size](_ => 0);
      diagonalIndexCarryover := new nat[size](_ => 0);
      verticalLengthCarryover := new nat[n](_ => 0);
      verticalIndexCarryover := new nat[n](_ => 0);
      whiteVerticalLengthCarryover := new nat[n](_ => 0);
      whiteVerticalIndexCarryover := new nat[n](_ => 0);
    }
  }

  /** The quantification analysis over sub matrices: the global arrays, the
      schedule of the sub matrices and the carryover buffers, each kept by its
      own object. */
  class RqaSubMatricesCarryover {
    const rqa: Rqa
    const subMatrices: SubMatrices
    const carryover: Carryover

    /** The three parts agree on the matrix, and the arrays the
        post-processing writes are not the ones it reads. */
    ghost predicate Valid()
      reads this, rqa, subMatrices, carryover
    {
      && rqa.n == subMatrices.n == carryover.n
      && rqa.isMatrixSymmetric == carryover.isMatrixSymmetric
      && (carryover.isMatrixSymmetric || carryover.n >= 1)
      && subMatrices.Scheduled()
      && rqa.diagonalFrequencyDistribution.Length == rqa.n
      && rqa.verticalFrequencyDistribution.Length == rqa.n
      && rqa.whiteVerticalFrequencyDistribution.Length == rqa.n
      && rqa.diagonalFrequencyDistribution != rqa.verticalFrequencyDistribution
      && rqa.diagonalFrequencyDistribution != rqa.whiteVerticalFrequencyDistribution
      && rqa.verticalFrequencyDistribution != rqa.whiteVerticalFrequencyDistribution
      && carryover.whiteVerticalIndexCarryover != rqa.whiteVerticalFrequencyDistribution
      && carryover.diagonalLengthCarryover !in
           {rqa.diagonalFrequencyDistribution, rqa.verticalFrequencyDistribution, rqa.whiteVerticalFrequencyDistribution}
      && carryover.verticalLengthCarryover !in
           {rqa.diagonalFrequencyDistribution, rqa.verticalFrequencyDistribution, rqa.whiteVerticalFrequencyDistribution}
      && carryover.whiteVerticalLengthCarryover !in
           {rqa.diagonalFrequencyDistribution, rqa.verticalFrequencyDistribution, rqa.whiteVerticalFrequencyDistribution}
    }

    constructor (n: nat, isMatrixSymmetric: bool, theilerCorrector: int, edgeLength: nat, processingOrder: ProcessingOrder)
      requires edgeLength > 0
      requires isMatrixSymmetric || n >= 1
      ensures Valid() && rqa.Cleared() && carryover.Cleared()
      ensures rqa.n == n && rqa.isMatrixSymmetric == isMatrixSymmetric && rqa.theilerCorrector == theilerCorrector
      ensures subMatrices.processingOrder == processingOrder
      ensures subMatrices.edgeLength == ClampEdgeLength(edgeLength)
      ensures fresh(rqa) && fresh(subMatrices) && fresh(carryover)
      ensures fresh(rqa.diagonalFrequencyDistribution) && fresh(rqa.verticalFrequencyDistribution)
      ensures fresh(rqa.whiteVerticalFrequencyDistribution)
    {
      rqa := new Rqa(n, isMatrixSymmetric, theilerCorrector);
      subMatrices := new SubMatrices(n, edgeLength, processingOrder);
      carryover := new Carryover(n, isMatrixSymmetric);
    }

    /** Clears the global arrays and the carryovers and re-creates the
        schedule. */
    method Reset()
      requires Valid()
      modifies rqa, subMatrices, carryover
      ensures Valid() && rqa.Cleared() && carryover.Cleared()
      ensures subMatrices.edgeLength == old(subMatrices.edgeLength)
      ensures fresh(rqa.diagonalFrequencyDistribution) && fresh(rqa.verticalFrequencyDistribution)
      ensures fresh(rqa.whiteVerticalFrequencyDistribution)
    {
      rqa.Reset();
      subMatrices.Reset();
      carryover.Reset();
    }

    /** Records the lines still open at the end of the last sub matrices:
        every positive length carryover is one more line of that length. */
    method PostProcessLengthCarryovers()
      requires Valid()
      requires forall d | 0 <= d < carryover.diagonalLengthCarryover.Length :: carryover.diagonalLengthCarryover[d] <= rqa.n
      requires forall i | 0 <= i < carryover.verticalLengthCarryover.Length :: carryover.verticalLengthCarryover[i] <= rqa.n
      requires forall i | 0 <= i < carryover.whiteVerticalLengthCarryover.Length :: carryover.whiteVerticalLengthCarryover[i] <= rqa.n
      modifies rqa.diagonalFrequencyDistribution, rqa.verticalFrequencyDistribution, rqa.whiteVerticalFrequencyDistribution
      ensures forall len | 1 <= len <= rqa.n ::
        && rqa.diagonalFrequencyDistribution[len - 1]
             == old(rqa.diagonalFrequencyDistribution[len - 1]) + multiset(carryover.diagonalLengthCarryover[..])[len]
        && rqa.verticalFrequencyDistribution[len - 1]
             == old(rqa.verticalFrequencyDistribution[len - 1]) + multiset(carryover.verticalLengthCarryover[..])[len]
        && rqa.whiteVerticalFrequencyDistribution[len - 1]
             == old(rqa.whiteVerticalFrequencyDistribution[len - 1]) + multiset(carryover.whiteVerticalLengthCarryover[..])[len]
      ensures WeightedSum(rqa.diagonalFrequencyDistribution[..])
           == WeightedSum(old(rqa.diagonalFrequencyDistribution[..])) + Sum(carryover.diagonalLengthCarryover[..])
      ensures WeightedSum(rqa.verticalFrequencyDistribution[..])
           == WeightedSum(old(rqa.verticalFrequencyDistribution[..])) + Sum(carryover.verticalLengthCarryover[..])
      ensures WeightedSum(rqa.whiteVerticalFrequencyDistribution[..])
           == WeightedSum(old(rqa.whiteVerticalFrequencyDistribution[..])) + Sum(carryover.whiteVerticalLengthCarryover[..])
    {
      FlushCarryover(carryover.diagonalLengthCarryover, rqa.diagonalFrequencyDistribution);
      FlushCarryover(carryover.verticalLengthCarryover, rqa.verticalFrequencyDistribution);
      FlushCarryover(carryover.whiteVerticalLengthCarryover, rqa.whiteVerticalFrequencyDistribution);
    }

    /** Records the white vertical line that ends each column: `n - idx - 1`
        cells after the column's last recurrence point at row `idx`. */
    method PostProcessWhiteVerticalIndexCarryover()
      requires Valid()
      modifies rqa.whiteVerticalFrequencyDistribution
      ensures forall len | 1 <= len <= rqa.n ::
        rqa.whiteVerticalFrequencyDistribution[len - 1]
          == old(rqa.whiteVerticalFrequencyDistribution[len - 1])
           + multiset(TrailingWhiteLengths(rqa.n, carryover.whiteVerticalIndexCarryover[..]))[len]
    {
      var n := rqa.n;
      var indices := carryover.whiteVerticalIndexCarryover;
      var h := rqa.whiteVerticalFrequencyDistribution;
      for j := 0 to indices.Length
        invariant forall len | 1 <= len <= n ::
          h[len - 1] == old(h[len - 1]) + multiset(TrailingWhiteLengths(n, indices[..j]))[len]
      {
        var lineLength := (n as int) - indices[j] - 1;
        if lineLength > 0 {
          h[lineLength - 1] := h[lineLength - 1] + 1;
        }
        assert TrailingWhiteLengths(n, indices[..j + 1]) == TrailingWhiteLengths(n, indices[..j]) + [lineLength];
      }
      assert indices[..indices.Length] == indices[..];
    }
  }

  // ---------------------------------------------------------------------------
  // The recurrence plot.

  /** The cell of the recurrence plot in row `y`, column `x`. */
  function PlotCell(recurrent: (int, int) -> bool, x: int, y: int): nat
  {
    if recurrent(x, y) then 1 else 0
  }

  class RecurrencePlot {
    const n: nat
    /** Row `y`, column `x`: 1 when vectors `x` and `y` recur. */
    var recurrenceMatrix: array2<nat>

    ghost predicate Cleared()
      reads this, recurrenceMatrix
    {
      && recurrenceMatrix.Length0 == n && recurrenceMatrix.Length1 == n
      && forall y, x | 0 <= y < n && 0 <= x < n :: recurrenceMatrix[y, x] == 0
    }

    constructor (n: nat)
      ensures this.n == n && Cleared() && fresh(recurrenceMatrix)
    {
      this.n := n;
      recurrenceMatrix := new nat[n, n]((_, _) => 0);
    }

    /** Replaces the matrix by a fresh zeroed one. */
    method Reset()
      modifies this
      ensures Cleared() && fresh(recurrenceMatrix)
    {
      recurrenceMatrix := new nat[n, n]((_, _) => 0);
    }
  }

  lemma RowMajorBound(i: nat, j: nat, rows: nat, cols: nat)
    requires i < rows && j < cols
    ensures i * cols + j < rows * cols
  {
    MulMonotone(i + 1, rows, cols);
  }

  /** Entry `(i, j)` of `data` read as a `rows x cols` matrix in row-major
      order. */
  function RowMajor(data: seq<nat>, rows: nat, cols: nat, i: nat, j: nat): nat
    requires |data| == rows * cols && i < rows && j < cols
  {
    RowMajorBound(i, j, rows, cols);
    data[i * cols + j]
  }

  /** Entry `k` of a row-major matrix with `cols` columns lies in row
      `k / cols`, column `k % cols`. */
  lemma RowMajorIndex(i: nat, j: nat, cols: nat)
    requires j < cols
    ensures (i * cols + j) / cols == i && (i * cols + j) % cols == j
  {
    var k := i * cols + j;
    var q, r := k / cols, k % cols;
    assert k == q * cols + r && 0 <= r < cols;
    assert (i - q) * cols == r - j;
    if q < i {
      MulMonotone(1, i - q, cols);
    } else if q > i {
      MulMonotone(1, q - i, cols);
    }
  }

  /** The plot cells of `sm`, row after row. */
  function TileCells(recurrent: (int, int) -> bool, sm: SubMatrix): seq<nat>
    requires sm.dimX > 0
  {
    seq(sm.dimY * sm.dimX, k requires 0 <= k < sm.dimY * sm.dimX =>
          PlotCell(recurrent, sm.startX + k % sm.dimX, sm.startY + k / sm.dimX))
  }

  lemma TileCellsLayout(recurrent: (int, int) -> bool, sm: SubMatrix, i: nat, j: nat)
    requires i < sm.dimY && j < sm.dimX
    ensures RowMajor(TileCells(recurrent, sm), sm.dimY, sm.dimX, i, j) == PlotCell(recurrent, sm.startX + j, sm.startY + i)
  {
    RowMajorIndex(i, j, sm.dimX);
    RowMajorBound(i, j, sm.dimY, sm.dimX);
  }

  /** The result of one sub matrix as its computation delivers it: the plot
      cells of the `dimY` rows of `dimX` cells, in row-major order. */
  function TileData(recurrent: (int, int) -> bool, sm: SubMatrix): (data: seq<nat>)
    ensures |data| == sm.dimY * sm.dimX
    ensures forall i, j | 0 <= i < sm.dimY && 0 <= j < sm.dimX ::
      RowMajor(data, sm.dimY, sm.dimX, i, j) == PlotCell(recurrent, sm.startX + j, sm.startY + i)
  {
    if sm.dimX == 0 then []
    else
      assert forall i, j | 0 <= i < sm.dimY && 0 <= j < sm.dimX ::
        RowMajor(TileCells(recurrent, sm), sm.dimY, sm.dimX, i, j) == PlotCell(recurrent, sm.startX + j, sm.startY + i) by {
        forall i, j | 0 <= i < sm.dimY && 0 <= j < sm.dimX
          ensures RowMajor(TileCells(recurrent, sm), sm.dimY, sm.dimX, i, j) == PlotCell(recurrent, sm.startX + j, sm.startY + i)
        {
          TileCellsLayout(recurrent, sm, i, j);
        }
      }
      TileCells(recurrent, sm)
  }

  /** Every cell of the matrix lies in a sub matrix of some queue of a
      schedule. */
  lemma ScheduleCoversMatrix(n: nat, edgeLength: nat, order: ProcessingOrder, queues: seq<seq<SubMatrix>>, x: nat, y: nat)
    returns (q: nat, j: nat)
    requires edgeLength > 0 && IsSchedule(n, edgeLength, order, queues) && x < n && y < n
    ensures q < |queues| && j < |queues[q]| && InTile(queues[q][j], x, y)
  {
    var sm := GridCoversMatrix(n, edgeLength, x, y);
    q := QueueIndex(order, sm.partitionIndexX, sm.partitionIndexY);
    assert sm in queues[q];
    j :| 0 <= j < |queues[q]| && queues[q][j] == sm;
  }

  /** Some sub matrix of `done` holds the cell `(x, y)`. */
  ghost predicate Covered(done: seq<SubMatrix>, x: int, y: int)
  {
    exists k | 0 <= k < |done| :: InTile(done[k], x, y)
  }

  lemma CoveredSnoc(done: seq<SubMatrix>, sm: SubMatrix)
    ensures forall x, y :: Covered(done + [sm], x, y) == (Covered(done, x, y) || InTile(sm, x, y))
  {
    forall x, y ensures Covered(done + [sm], x, y) == (Covered(done, x, y) || InTile(sm, x, y)) {
      if Covered(done, x, y) {
        var k :| 0 <= k < |done| && InTile(done[k], x, y);
        assert (done + [sm])[k] == done[k];
      }
      if InTile(sm, x, y) {
        assert (done + [sm])[|done|] == sm;
      }
    }
  }

  /** The recurrence plot over sub matrices. */
  class RecurrencePlotSubMatrices {
    const plot: RecurrencePlot
    const subMatrices: SubMatrices

    constructor (n: nat, edgeLength: nat, processingOrder: ProcessingOrder)
      requires edgeLength > 0
      ensures plot.n == n && plot.Cleared() && subMatrices.n == n && subMatrices.Scheduled()
      ensures subMatrices.processingOrder == processingOrder
      ensures subMatrices.edgeLength == ClampEdgeLength(edgeLength)
      ensures fresh(plot) && fresh(subMatrices) && fresh(plot.recurrenceMatrix)
    {
      plot := new RecurrencePlot(n);
      subMatrices := new SubMatrices(n, edgeLength, processingOrder);
    }

    method Reset()
      requires subMatrices.Scheduled()
      modifies plot, subMatrices
      ensures plot.Cleared() && fresh(plot.recurrenceMatrix) && subMatrices.Scheduled()
      ensures subMatrices.edgeLength == old(subMatrices.edgeLength)
    {
      plot.Reset();
      subMatrices.Reset();
    }

    /** Copies the result of one sub matrix, `dimY` rows of `dimX` cells in
        row-major order, into its place in the global matrix. */
    method InsertSubMatrix(sm: SubMatrix, data: seq<nat>)
      requires |data| == sm.dimY * sm.dimX
      requires sm.startY + sm.dimY <= plot.recurrenceMatrix.Length0
      requires sm.startX + sm.dimX <= plot.recurrenceMatrix.Length1
      modifies plot.recurrenceMatrix
      ensures forall y, x | 0 <= y < plot.recurrenceMatrix.Length0 && 0 <= x < plot.recurrenceMatrix.Length1 ::
        plot.recurrenceMatrix[y, x]
          == if InTile(sm, x, y) then RowMajor(data, sm.dimY, sm.dimX, y - sm.startY, x - sm.startX)
             else old(plot.recurrenceMatrix[y, x])
    {
      var m := plot.recurrenceMatrix;
      forall y, x | sm.startY <= y < sm.startY + sm.dimY && sm.startX <= x < sm.startX + sm.dimX {
        m[y, x] := RowMajor(data, sm.dimY, sm.dimX, y - sm.startY, x - sm.startX);
      }
    }

    /** Inserts the result of `sm`: the cells covered by `done` and those of
        `sm` then hold their plot cells. */
    method InsertTile(recurrent: (int, int) -> bool, sm: SubMatrix, ghost done: seq<SubMatrix>)
      requires plot.recurrenceMatrix.Length0 == plot.n && plot.recurrenceMatrix.Length1 == plot.n
      requires sm.startY + sm.dimY <= plot.n && sm.startX + sm.dimX <= plot.n
      requires forall y, x | 0 <= y < plot.n && 0 <= x < plot.n && Covered(done, x, y) ::
        plot.recurrenceMatrix[y, x] == PlotCell(recurrent, x, y)
      modifies plot.recurrenceMatrix
      ensures forall y, x | 0 <= y < plot.n && 0 <= x < plot.n && Covered(done + [sm], x, y) ::
        plot.recurrenceMatrix[y, x] == PlotCell(recurrent, x, y)
    {
      InsertSubMatrix(sm, TileData(recurrent, sm));
      CoveredSnoc(done, sm);
    }

    /** Computes every scheduled sub matrix from `recurrent` and inserts it,
        level after level and each queue in order: afterwards the plot is the
        whole recurrence plot, whatever it held before. */
    method InsertSubMatrices(recurrent: (int, int) -> bool)
      requires subMatrices.Scheduled() && subMatrices.n == plot.n
      requires plot.recurrenceMatrix.Length0 == plot.n && plot.recurrenceMatrix.Length1 == plot.n
      modifies plot.recurrenceMatrix
      ensures forall y, x | 0 <= y < plot.n && 0 <= x < plot.n ::
        plot.recurrenceMatrix[y, x] == PlotCell(recurrent, x, y)
    {
      var n, queues, m := plot.n, subMatrices.subMatrixQueues, plot.recurrenceMatrix;
      ghost var done: seq<SubMatrix> := [];
      for q := 0 to |queues|
        invariant forall q', j' | 0 <= q' < q && 0 <= j' < |queues[q']| :: queues[q'][j'] in done
        invariant forall y, x | 0 <= y < n && 0 <= x < n && Covered(done, x, y) :: m[y, x] == PlotCell(recurrent, x, y)
      {
        for j := 0 to |queues[q]|
          invariant forall q', j' | 0 <= q' < q && 0 <= j' < |queues[q']| :: queues[q'][j'] in done
          invariant forall j' | 0 <= j' < j :: queues[q][j'] in done
          invariant forall y, x | 0 <= y < n && 0 <= x < n && Covered(done, x, y) :: m[y, x] == PlotCell(recurrent, x, y)
        {
          var sm := queues[q][j];
          PartitionBounds(n, subMatrices.edgeLength, sm.partitionIndexX);
          PartitionBounds(n, subMatrices.edgeLength, sm.partitionIndexY);
          InsertTile(recurrent, sm, done);
          done := done + [sm];
        }
      }
      forall y, x | 0 <= y < n && 0 <= x < n
        ensures Covered(done, x, y)
      {
        var q, j := ScheduleCoversMatrix(n, subMatrices.edgeLength, subMatrices.processingOrder, queues, x, y);
        var k :| 0 <= k < |done| && done[k] == queues[q][j];
      }
    }

    /** Clears the plot, re-creates the schedule and inserts every sub
        matrix: the plot computed over sub matrices is the recurrence plot,
        cell for cell. */
    method Run(recurrent: (int, int) -> bool)
      requires subMatrices.Scheduled() && subMatrices.n == plot.n
      modifies plot, subMatrices
      ensures subMatrices.Scheduled()
      ensures plot.recurrenceMatrix.Length0 == plot.n && plot.recurrenceMatrix.Length1 == plot.n
      ensures forall y, x | 0 <= y < plot.n && 0 <= x < plot.n ::
        plot.recurrenceMatrix[y, x] == PlotCell(recurrent, x, y)
    {
      Reset();
      InsertSubMatrices(recurrent);
    }
  }
}
