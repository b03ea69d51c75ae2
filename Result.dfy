/** The results of a recurrence analysis: the frequency distributions of
    diagonal, vertical and white vertical lines, and the counts drawn from
    them. Bucket `i` of a distribution counts the lines of length `i + 1`. */
module Result {
  import opened Runs
  import opened RqaBaseline
  import Settings

  datatype Option<T> = None | Some(value: T)

  /** The three kinds of lines a result describes. */
  datatype Family = Diagonal | Vertical | WhiteVertical

  /** Whether a setter completed or raised a runtime error. */
  datatype Status = Done | RuntimeError

  /** What a result knows of one kind of lines: their number, the number of
      points they cover and the length of the longest one. */
  datatype LineMeasures = LineMeasures(numberOfLines: nat, numberOfLinesPoints: nat, longestLine: nat)

  // ---------------------------------------------------------------------------
  // Counts over a frequency distribution.

  /** Where the buckets of lines of at least `min` points begin: bucket
      `min - 1`, or the end for a minimum beyond the longest bucket. */
  function Tail(h: seq<nat>, min: int): (k: nat)
    requires min > 0
    ensures k <= |h|
    ensures k == |h| || k == min - 1
  {
    if min - 1 < |h| then min - 1 else |h|
  }

  /** The number of lines of at least `min` points. */
  function LinesFrom(h: seq<nat>, min: int): nat
    requires min > 0
  {
    Sum(h[Tail(h, min)..])
  }

  /** The points on the lines of buckets `i` onwards: each line of bucket `j`
      covers `j + 1` points. */
  function PointsFrom(h: seq<nat>, i: nat): nat
    decreases |h| - i
  {
    if i >= |h| then 0 else (i + 1) * h[i] + PointsFrom(h, i + 1)
  }

  /** The number of points on lines of at least `min` points. */
  function LinePointsFrom(h: seq<nat>, min: int): nat
    requires min > 0
  {
    PointsFrom(h, Tail(h, min))
  }

  /** The length of the longest line: one more than the last bucket that is
      not zero; `None` when every bucket is zero. */
  function LongestLine(h: seq<nat>): (r: Option<nat>)
    ensures r.None? <==> forall i | 0 <= i < |h| :: h[i] == 0
    ensures r.Some? ==> 1 <= r.value <= |h| && h[r.value - 1] > 0
    ensures r.Some? ==> forall i | r.value <= i < |h| :: h[i] == 0
  {
    if |h| == 0 then None
    else if h[|h| - 1] != 0 then Some(|h|)
    else LongestLine(h[..|h| - 1])
  }

  lemma SumCons(h: seq<nat>, i: nat)
    requires i < |h|
    ensures Sum(h[i..]) == h[i] + Sum(h[i + 1..])
  {
    assert h[i..] == [h[i]] + h[i + 1..];
    SumAppend([h[i]], h[i + 1..]);
    assert [h[i]][..0] == [];
  }

  lemma {:induction false} PointsAtLeast(h: seq<nat>, i: nat)
    requires i <= |h|
    ensures PointsFrom(h, i) >= (i + 1) * Sum(h[i..])
    decreases |h| - i
  {
    if i < |h| {
      PointsAtLeast(h, i + 1);
      SumCons(h, i);
      var rest := Sum(h[i + 1..]);
      assert (i + 2) * rest >= (i + 1) * rest;
      assert (i + 1) * (h[i] + rest) == (i + 1) * h[i] + (i + 1) * rest;
    }
  }

  /** Lines of at least `min` points cover at least `min` points each. */
  lemma LinePointsAtLeast(h: seq<nat>, min: int)
    requires min > 0
    ensures LinePointsFrom(h, min) >= min * LinesFrom(h, min)
  {
    if Tail(h, min) < |h| {
      PointsAtLeast(h, min - 1);
    }
  }

  lemma {:induction false} PointsSnoc(h: seq<nat>, x: nat, i: nat)
    requires i <= |h|
    ensures PointsFrom(h + [x], i) == PointsFrom(h, i) + (|h| + 1) * x
    decreases |h| - i
  {
    if i < |h| {
      PointsSnoc(h, x, i + 1);
      assert (h + [x])[i] == h[i];
    }
  }

  lemma {:induction false} PointsFromStart(h: seq<nat>)
    ensures PointsFrom(h, 0) == WeightedSum(h)
  {
    if h != [] {
      var init := h[..|h| - 1];
      PointsFromStart(init);
      PointsSnoc(init, h[|h| - 1], 0);
      assert init + [h[|h| - 1]] == h;
    }
  }

  /** With a minimum of one, every line counts: the number of lines is the
      sum of the distribution, and their points are its weighted sum. */
  lemma MinimumOne(h: seq<nat>)
    ensures LinesFrom(h, 1) == Sum(h)
    ensures LinePointsFrom(h, 1) == WeightedSum(h)
  {
    assert h[0..] == h;
    PointsFromStart(h);
  }

  lemma {:induction false} SumSuffixMonotone(h: seq<nat>, a: nat, b: nat)
    requires a <= b <= |h|
    ensures Sum(h[b..]) <= Sum(h[a..])
  {
    assert h[a..] == h[a..b] + h[b..];
    SumAppend(h[a..b], h[b..]);
  }

  lemma {:induction false} PointsMonotone(h: seq<nat>, a: nat, b: nat)
    requires a <= b
    ensures PointsFrom(h, b) <= PointsFrom(h, a)
    decreases b - a
  {
    if a < b {
      PointsMonotone(h, a + 1, b);
    }
  }

  /** Raising the minimum line length never adds lines or points. */
  lemma RaisingTheMinimum(h: seq<nat>, min: int, min': int)
    requires 0 < min <= min'
    ensures LinesFrom(h, min') <= LinesFrom(h, min)
    ensures LinePointsFrom(h, min') <= LinePointsFrom(h, min)
  {
    SumSuffixMonotone(h, Tail(h, min), Tail(h, min'));
    PointsMonotone(h, Tail(h, min), Tail(h, min'));
  }

  lemma {:induction false} SumOfZeros(s: seq<nat>)
    requires forall i | 0 <= i < |s| :: s[i] == 0
    ensures Sum(s) == 0
  {
    if s != [] {
      SumOfZeros(s[..|s| - 1]);
    }
  }

  lemma {:induction false} SumAtLeastElement(s: seq<nat>, k: nat)
    requires k < |s|
    ensures Sum(s) >= s[k]
  {
    if k < |s| - 1 {
      SumAtLeastElement(s[..|s| - 1], k);
    }
  }

  /** There are lines of at least `min` points exactly when the longest
      line has at least `min` points. */
  lemma LinesUpToTheLongest(h: seq<nat>, min: int)
    requires min > 0
    ensures LinesFrom(h, min) > 0 <==> LongestLine(h).Some? && min <= LongestLine(h).value
  {
    var t := h[Tail(h, min)..];
    match LongestLine(h)
    case None =>
      SumOfZeros(t);
    case Some(l) =>
      if min <= l {
        SumAtLeastElement(t, l - 1 - Tail(h, min));
      } else {
        SumOfZeros(t);
      }
  }

  /** For lines that all fit the distribution, the longest line is the
      longest of them, and there is one exactly when there are lines. */
  lemma LongestOfHistogram(runs: seq<nat>, size: nat)
    requires forall k | 0 <= k < |runs| :: 1 <= runs[k] <= size
    ensures LongestLine(Histogram(multiset(runs), size)).None? <==> runs == []
    ensures LongestLine(Histogram(multiset(runs), size)).Some? ==>
      && LongestLine(Histogram(multiset(runs), size)).value in runs
      && forall k | 0 <= k < |runs| :: runs[k] <= LongestLine(Histogram(multiset(runs), size)).value
  {
    var h := Histogram(multiset(runs), size);
    if runs != [] {
      assert h[runs[0] - 1] > 0;
    }
    match LongestLine(h)
    case None =>
    case Some(l) =>
      assert multiset(runs)[l] > 0;
      forall k | 0 <= k < |runs|
        ensures runs[k] <= l
      {
        assert h[runs[k] - 1] > 0;
      }
  }

  /** The vertical lines of a matrix cover its recurrence points: with a
      minimum of one, the number of vertical line points is the number of
      recurrence points. */
  lemma VerticalLinePointsAreRecurrencePoints(recurrent: (int, int) -> bool, n: nat)
    ensures LinePointsFrom(Histogram(multiset(VerticalLines(recurrent, n)), n), 1) == Sum(RecurrencePoints(recurrent, n))
  {
    MinimumOne(Histogram(multiset(VerticalLines(recurrent, n)), n));
    VerticalLinesCoverRecurrencePoints(recurrent, n);
  }

  /** What the setters of one kind of lines leave: the number of lines and
      of their points for lines of at least `min` points, and the longest
      line, kept from `previous` when there are no lines at all. */
  function Measured(previous: LineMeasures, h: seq<nat>, min: int): (m: LineMeasures)
    requires min > 0
    ensures m.numberOfLinesPoints >= min * m.numberOfLines
    ensures m.numberOfLines > 0 ==> min <= m.longestLine <= |h| && h[m.longestLine - 1] > 0
    ensures (forall i | 0 <= i < |h| :: h[i] == 0) ==> m.longestLine == previous.longestLine
  {
    LinePointsAtLeast(h, min);
    LinesUpToTheLongest(h, min);
    LineMeasures(
      LinesFrom(h, min),
      LinePointsFrom(h, min),
      match LongestLine(h) case None => previous.longestLine case Some(l) => l)
  }

  // ---------------------------------------------------------------------------
  // Queries.

  /** The indices of the vectors with at most `threshold` local recurrence
      points, in increasing order. */
  function IndicesByNumberOfLocalRecurrencePoints(points: seq<nat>, threshold: int): (r: seq<nat>)
    ensures forall i, j | 0 <= i < j < |r| :: r[i] < r[j]
    ensures forall i: nat :: i in r <==> i < |points| && points[i] <= threshold
  {
    if |points| == 0 then []
    else
      var c := |points| - 1;
      var before := IndicesByNumberOfLocalRecurrencePoints(points[..c], threshold);
      assert forall k | 0 <= k < |before| :: before[k] in before && before[k] < c;
      before + if points[c] <= threshold then [c] else []
  }

  /** The rows in reverse order. */
  function RecurrenceMatrixReverse<T>(rows: seq<T>): (r: seq<T>)
    ensures |r| == |rows|
    ensures forall i | 0 <= i < |rows| :: r[i] == rows[|rows| - 1 - i]
  {
    if |rows| == 0 then [] else [rows[|rows| - 1]] + RecurrenceMatrixReverse(rows[..|rows| - 1])
  }

  /** Reversing twice gives the rows back. */
  lemma ReverseTwice<T>(rows: seq<T>)
    ensures RecurrenceMatrixReverse(RecurrenceMatrixReverse(rows)) == rows
  {
  }

  // ---------------------------------------------------------------------------
  // The result object.

  class RqaResult {
    /** Shared with the analysis: the minimum line lengths are read here. */
    var settings: Settings.Settings
    var recurrencePoints: seq<nat>
    var diagonalFrequencyDistribution: seq<nat>
    var verticalFrequencyDistribution: seq<nat>
    var whiteVerticalFrequencyDistribution: seq<nat>
    var numberOfRecurrencePoints: nat
    var diagonalLines: LineMeasures
    var verticalLines: LineMeasures
    var whiteVerticalLines: LineMeasures

    function Distribution(f: Family): seq<nat>
      reads this
    {
      match f
      case Diagonal => diagonalFrequencyDistribution
      case Vertical => verticalFrequencyDistribution
      case WhiteVertical => whiteVerticalFrequencyDistribution
    }

    function MinLength(f: Family): int
      reads this
    {
      match f
      case Diagonal => settings.minDiagonalLineLength
      case Vertical => settings.minVerticalLineLength
      case WhiteVertical => settings.minWhiteVerticalLineLength
    }

    function Measures(f: Family): LineMeasures
      reads this
    {
      match f
      case Diagonal => diagonalLines
      case Vertical => verticalLines
      case WhiteVertical => whiteVerticalLines
    }

    /** Everything but the measures of `f` is as it was. */
    twostate predicate OnlyMeasuresOf(f: Family)
      reads this
    {
      && settings == old(settings)
      && recurrencePoints == old(recurrencePoints)
      && diagonalFrequencyDistribution == old(diagonalFrequencyDistribution)
      && verticalFrequencyDistribution == old(verticalFrequencyDistribution)
      && whiteVerticalFrequencyDistribution == old(whiteVerticalFrequencyDistribution)
      && numberOfRecurrencePoints == old(numberOfRecurrencePoints)
      && forall g: Family | g != f :: Measures(g) == old(Measures(g))
    }

    /** A result over the given distributions, every count zero. */
    constructor (settings: Settings.Settings, recurrencePoints: seq<nat>, diagonalFrequencyDistribution: seq<nat>,
                 verticalFrequencyDistribution: seq<nat>, whiteVerticalFrequencyDistribution: seq<nat>)
      ensures this.settings == settings && this.recurrencePoints == recurrencePoints
      ensures this.diagonalFrequencyDistribution == diagonalFrequencyDistribution
      ensures this.verticalFrequencyDistribution == verticalFrequencyDistribution
      ensures this.whiteVerticalFrequencyDistribution == whiteVerticalFrequencyDistribution
      ensures numberOfRecurrencePoints == 0
      ensures forall f :: Measures(f) == LineMeasures(0, 0, 0)
    {
      this.settings := settings;
      this.recurrencePoints := recurrencePoints;
      this.diagonalFrequencyDistribution := diagonalFrequencyDistribution;
      this.verticalFrequencyDistribution := verticalFrequencyDistribution;
      this.whiteVerticalFrequencyDistribution := whiteVerticalFrequencyDistribution;
      numberOfRecurrencePoints := 0;
      diagonalLines := LineMeasures(0, 0, 0);
      verticalLines := LineMeasures(0, 0, 0);
      whiteVerticalLines := LineMeasures(0, 0, 0);
    }

    /** Creates a result and brings every count up to date; a minimum line
        length that is not positive raises, and no result is made. */
    static method New(settings: Settings.Settings, recurrencePoints: seq<nat>, diagonalFrequencyDistribution: seq<nat>,
                      verticalFrequencyDistribution: seq<nat>, whiteVerticalFrequencyDistribution: seq<nat>)
      returns (result: RqaResult?, status: Status)
      ensures status == Done <==>
        settings.minDiagonalLineLength > 0 && settings.minVerticalLineLength > 0 && settings.minWhiteVerticalLineLength > 0
      ensures status == RuntimeError <==> result == null
      ensures result != null ==> fresh(result) && result.settings == settings
      ensures result != null ==> result.numberOfRecurrencePoints == Sum(recurrencePoints)
      ensures result != null ==>
        forall f :: result.MinLength(f) > 0 && result.Measures(f) == Measured(LineMeasures(0, 0, 0), result.Distribution(f), result.MinLength(f))
    {
      result := new RqaResult(settings, recurrencePoints, diagonalFrequencyDistribution,
        verticalFrequencyDistribution, whiteVerticalFrequencyDistribution);
      status := result.Update();
      if status == RuntimeError {
        result := null;
      }
    }

    /** Sets the measures of `f` and nothing else. */
    method Assign(f: Family, m: LineMeasures)
      modifies this
      ensures Measures(f) == m && OnlyMeasuresOf(f)
    {
      match f
      case Diagonal => diagonalLines := m;
      case Vertical => verticalLines := m;
      case WhiteVertical => whiteVerticalLines := m;
    }

    /** The number of recurrence points is the sum of the local ones. */
    method SetNumberOfRecurrencePoints()
      modifies this
      ensures numberOfRecurrencePoints == Sum(recurrencePoints)
      ensures settings == old(settings) && recurrencePoints == old(recurrencePoints)
      ensures forall f :: Distribution(f) == old(Distribution(f)) && Measures(f) == old(Measures(f))
    {
      numberOfRecurrencePoints := Sum(recurrencePoints);
    }

    /** The number of lines of `f` of at least the minimum length. */
    method SetNumberOfLines(f: Family) returns (status: Status)
      modifies this
      ensures status == Done <==> MinLength(f) > 0
      ensures OnlyMeasuresOf(f)
      ensures Measures(f) == if MinLength(f) > 0
        then old(Measures(f)).(numberOfLines := LinesFrom(Distribution(f), MinLength(f))) else old(Measures(f))
    {
      if MinLength(f) > 0 {
        Assign(f, Measures(f).(numberOfLines := Sum(Distribution(f)[Tail(Distribution(f), MinLength(f))..])));
        return Done;
      }
      return RuntimeError;
    }

    /** The number of points on lines of `f` of at least the minimum length. */
    method SetNumberOfLinesPoints(f: Family) returns (status: Status)
      modifies this
      ensures status == Done <==> MinLength(f) > 0
      ensures OnlyMeasuresOf(f)
      ensures Measures(f) == if MinLength(f) > 0
        then old(Measures(f)).(numberOfLinesPoints := LinePointsFrom(Distribution(f), MinLength(f))) else old(Measures(f))
    {
      if MinLength(f) > 0 {
        Assign(f, Measures(f).(numberOfLinesPoints := PointsFrom(Distribution(f), Tail(Distribution(f), MinLength(f)))));
        return Done;
      }
      return RuntimeError;
    }

    /** The longest line of `f`, whatever the minimum length; unchanged when
        there are no lines. */
    method SetLongestLine(f: Family) returns (status: Status)
      modifies this
      ensures status == Done <==> MinLength(f) > 0
      ensures OnlyMeasuresOf(f)
      ensures MinLength(f) > 0 && LongestLine(Distribution(f)).Some?
        ==> Measures(f) == old(Measures(f)).(longestLine := LongestLine(Distribution(f)).value)
      ensures MinLength(f) <= 0 || LongestLine(Distribution(f)).None? ==> Measures(f) == old(Measures(f))
    {
      if MinLength(f) > 0 {
        var nonZero := LongestLine(Distribution(f));
        if nonZero.Some? {
          Assign(f, Measures(f).(longestLine := nonZero.value));
        }
        return Done;
      }
      return RuntimeError;
    }

    /** Brings the measures of `f` up to date; a minimum line length that is
        not positive raises before anything changes. */
    method UpdateLines(f: Family) returns (status: Status)
      modifies this
      ensures status == Done <==> MinLength(f) > 0
      ensures OnlyMeasuresOf(f)
      ensures Measures(f) == if MinLength(f) > 0 then Measured(old(Measures(f)), Distribution(f), MinLength(f)) else old(Measures(f))
    {
      status := SetNumberOfLines(f);
      if status == RuntimeError {
        return;
      }
      status := SetNumberOfLinesPoints(f);
      status := SetLongestLine(f);
    }

    /** Brings every count up to date, the diagonal lines first, then the
        vertical and the white vertical lines; the first kind whose minimum
        length is not positive raises and stops the update. */
    method Update() returns (status: Status)
      modifies this
      ensures status == Done <==> MinLength(Diagonal) > 0 && MinLength(Vertical) > 0 && MinLength(WhiteVertical) > 0
      ensures numberOfRecurrencePoints == Sum(recurrencePoints)
      ensures settings == old(settings) && recurrencePoints == old(recurrencePoints)
      ensures forall f :: Distribution(f) == old(Distribution(f))
      ensures Measures(Diagonal) == if MinLength(Diagonal) > 0
        then Measured(old(Measures(Diagonal)), Distribution(Diagonal), MinLength(Diagonal)) else old(Measures(Diagonal))
      ensures Measures(Vertical) == if MinLength(Diagonal) > 0 && MinLength(Vertical) > 0
        then Measured(old(Measures(Vertical)), Distribution(Vertical), MinLength(Vertical)) else old(Measures(Vertical))
      ensures Measures(WhiteVertical) == if status == Done
        then Measured(old(Measures(WhiteVertical)), Distribution(WhiteVertical), MinLength(WhiteVertical))
        else old(Measures(WhiteVertical))
    {
      SetNumberOfRecurrencePoints();
      status := UpdateLines(Diagonal);
      if status == RuntimeError {
        return;
      }
      status := UpdateLines(Vertical);
      if status == RuntimeError {
        return;
      }
      status := UpdateLines(WhiteVertical);
    }

    /** Sets the minimum length of lines of `f` and brings only the measures
        of `f` up to date. */
    method SetMinLineLength(f: Family, value: int) returns (status: Status)
      modifies this
      ensures MinLength(f) == value
      ensures forall g: Family | g != f :: MinLength(g) == old(MinLength(g))
      ensures settings == old(settings).(minDiagonalLineLength := settings.minDiagonalLineLength,
        minVerticalLineLength := settings.minVerticalLineLength,
        minWhiteVerticalLineLength := settings.minWhiteVerticalLineLength)
      ensures status == Done <==> value > 0
      ensures recurrencePoints == old(recurrencePoints) && numberOfRecurrencePoints == old(numberOfRecurrencePoints)
      ensures forall g :: Distribution(g) == old(Distribution(g))
      ensures forall g: Family | g != f :: Measures(g) == old(Measures(g))
      ensures Measures(f) == if value > 0 then Measured(old(Measures(f)), Distribution(f), value) else old(Measures(f))
    {
      match f {
        case Diagonal => settings := settings.(minDiagonalLineLength := value);
        case Vertical => settings := settings.(minVerticalLineLength := value);
        case WhiteVertical => settings := settings.(minWhiteVerticalLineLength := value);
      }
      status := UpdateLines(f);
    }
  }
}
